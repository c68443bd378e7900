/** The command queue of each server: enqueueing, acknowledging by report, and expiry. */
module ManagementQueue {

  import opened Basics
  import opened Management

  // ---------- what a step may do to a queue ----------

  function Body(c: Command): Command {
    c.(signedBy := "")
  }

  function Bodies(queue: seq<Command>): (r: seq<Command>)
    ensures |r| == |queue| && forall i :: 0 <= i < |queue| ==> r[i] == Body(queue[i])
  {
    seq(|queue|, i requires 0 <= i < |queue| => Body(queue[i]))
  }

  /** `part` is `whole` with some elements left out. */
  ghost predicate Subsequence(part: seq<Command>, whole: seq<Command>)
    decreases |whole|
  {
    if part == [] then true
    else if whole == [] then false
    else
      var init := whole[..|whole| - 1];
      (part[|part| - 1] == whole[|whole| - 1] && Subsequence(part[..|part| - 1], init)) || Subsequence(part, init)
  }

  /** One step of a queue: some of the commands are gone, the others stand in their order, at most
      signed anew, and `new`, if there is one, has been added at the end. */
  ghost predicate Stepped(before: seq<Command>, after: seq<Command>, new': Option<Command>) {
    match new'
    case None => Subsequence(Bodies(after), Bodies(before))
    case Some(c) => after != [] && after[|after| - 1] == c && Subsequence(Bodies(after[..|after| - 1]), Bodies(before))
  }

  lemma {:induction false} WholeIsSubsequence(q: seq<Command>)
    ensures Subsequence(q, q)
  {
    if q != [] {
      WholeIsSubsequence(q[..|q| - 1]);
    }
  }

  lemma {:induction false} SubsequenceWithMore(part: seq<Command>, whole: seq<Command>, c: Command)
    requires Subsequence(part, whole)
    ensures Subsequence(part, whole + [c]) && Subsequence(part + [c], whole + [c])
  {
    assert (whole + [c])[..|whole|] == whole && (part + [c])[..|part|] == part;
  }

  lemma {:induction false} SubsequenceTransitive(a: seq<Command>, b: seq<Command>, c: seq<Command>)
    requires Subsequence(a, b) && Subsequence(b, c)
    ensures Subsequence(a, c)
    decreases |c|
  {
    if a != [] {
      assert b != [] && c != [];
      var b', c' := b[..|b| - 1], c[..|c| - 1];
      if b[|b| - 1] == c[|c| - 1] && Subsequence(b', c') {
        if a[|a| - 1] == b[|b| - 1] && Subsequence(a[..|a| - 1], b') {
          SubsequenceTransitive(a[..|a| - 1], b', c');
        } else {
          SubsequenceTransitive(a, b', c');
        }
      } else {
        SubsequenceTransitive(a, b, c');
      }
    }
  }

  lemma {:induction false} SuffixIsSubsequence(q: seq<Command>, n: nat)
    requires n <= |q|
    ensures Subsequence(q[n..], q)
    decreases |q|
  {
    if n < |q| {
      var init := q[..|q| - 1];
      SuffixIsSubsequence(init, n);
      assert q[n..][..|q| - n - 1] == init[n..];
    }
  }

  lemma BodiesOfSuffix(q: seq<Command>, n: nat)
    requires n <= |q|
    ensures Bodies(q[n..]) == Bodies(q)[n..] && Bodies(q[..n]) == Bodies(q)[..n]
  {
  }

  lemma DroppingIsAStep(q: seq<Command>, n: nat)
    requires n <= |q|
    ensures Subsequence(Bodies(q[n..]), Bodies(q))
  {
    BodiesOfSuffix(q, n);
    SuffixIsSubsequence(Bodies(q), n);
  }

  lemma AppendingIsAStep(q: seq<Command>, c: Command)
    ensures Stepped(q, q + [c], Some(c))
  {
    assert (q + [c])[..|q|] == q;
    WholeIsSubsequence(Bodies(q));
  }

  lemma StayingIsAStep(q: seq<Command>)
    ensures Stepped(q, q, None)
  {
    WholeIsSubsequence(Bodies(q));
  }

  // ---------- enqueueing ----------

  /** Everything but the drawing of an identifier that enqueueing depends on. */
  predicate CanEnqueue(identities: map<string, Identity>, queue: seq<Command>, update: Option<Progress>,
                       job: Option<Job>, server: string, action: string, now: int, batch: bool) {
    !(IsUpdate(action) && (UpgradeInProgress(queue, update, now) || (!batch && Busy(job, server)))) &&
    server in identities && identities[server].tokenHash != "" &&
    |queue| < QUEUE_MAX
  }

  function Dispatched(action: string, payload: Payload, now: int): Progress {
    Progress(if action == "helper.update" then HelperPart
             else CorePart, Dispatching, if payload.Artifact? then payload.version else "", "", now, now)
  }

  function NewCommand(id: string, action: string, payload: Payload, now: int, batch: bool, tokenHash: string): Command {
    Command(id, action, payload, now, now + if batch then BATCH_TIMEOUT else COMMAND_TTL, tokenHash)
  }

  function WithUpdate(statuses: map<string, Status>, server: string, action: string, payload: Payload,
                      now: int): map<string, Status> {
    if IsUpdate(action)
      then statuses[server := StatusOf(statuses, server).(update := Some(Dispatched(action, payload, now)))]
    else statuses
  }

  /** No update can be in progress for a server: none waits in its queue, none has been heard of for
      15 minutes, and, unless the batch itself asks, none is due in the active batch. */
  ghost predicate NoUpdateUnderWay(queue: seq<Command>, update: Option<Progress>, job: Option<Job>, server: string,
                                   now: int, batch: bool) {
    (forall i :: 0 <= i < |queue| && queue[i].action in {"helper.update", "core.update", "core.install"} ==>
                   now >= queue[i].expiresAt) &&
    (update.Some? && update.value.phase !in {Success, Failed, RolledBack} ==> now >= update.value.updatedAt + 900) &&
    (job.Some? && job.value.phase == Active && !batch ==>
       forall i :: 0 <= i < |job.value.rows| && job.value.rows[i].server == server ==>
         var phase := job.value.rows[i].phase;
         phase == Skipped || phase == Cancelled || (phase.At? && phase.phase in {Success, Failed, RolledBack}))
  }

  lemma NoUpdateUnderWayIs(queue: seq<Command>, update: Option<Progress>, job: Option<Job>, server: string, now: int,
                           batch: bool)
    ensures NoUpdateUnderWay(queue, update, job, server, now, batch) <==>
            !UpgradeInProgress(queue, update, now) && (batch || !Busy(job, server))
  {
    assert forall i :: 0 <= i < |queue| ==> queue[i] in queue;
    if UpdateQueued(queue, now) {
      var c :| c in queue && IsUpdate(c.action) && now < c.expiresAt;
      var i :| 0 <= i < |queue| && queue[i] == c;
    }
    if job.Some? {
      assert forall i :: 0 <= i < |job.value.rows| ==> job.value.rows[i] in job.value.rows;
    }
    if Busy(job, server) {
      var row :| row in job.value.rows && row.server == server && (Waiting(row) || Running(row));
      var i :| 0 <= i < |job.value.rows| && job.value.rows[i] == row;
    }
  }

  lemma CanEnqueueIs(identities: map<string, Identity>, queue: seq<Command>, update: Option<Progress>,
                     job: Option<Job>, server: string, action: string, now: int, batch: bool)
    ensures CanEnqueue(identities, queue, update, job, server, action, now, batch) <==>
            server in identities && identities[server].tokenHash != "" && |queue| < 16 &&
            (action in {"helper.update", "core.update", "core.install"} ==>
               NoUpdateUnderWay(queue, update, job, server, now, batch))
  {
    NoUpdateUnderWayIs(queue, update, job, server, now, batch);
  }

  /** `id` is the identifier drawn, if that succeeds. */
  method EnqueueLocked(s: HelperState, server: string, action: string, payload: Payload, now: int, batch: bool,
                       id: Option<string>)
    returns (r: Option<Command>)
    modifies s`queues, s`statuses
    ensures r.Some? <==> id.Some? &&
                         CanEnqueue(s.identities, QueueOf(old(s.queues), server),
                                    StatusOf(old(s.statuses), server).update, s.job, server, action, now, batch)
    ensures r.None? ==> s.queues == old(s.queues) && s.statuses == old(s.statuses)
    ensures r.Some? ==> r.value == NewCommand(id.value, action, payload, now, batch, s.identities[server].tokenHash) &&
                        s.queues == old(s.queues)[server := QueueOf(old(s.queues), server) + [r.value]] &&
                        s.statuses == WithUpdate(old(s.statuses), server, action, payload, now)
    ensures r.Some? <==> id.Some? && server in s.identities && s.identities[server].tokenHash != "" &&
                         |QueueOf(old(s.queues), server)| < 16 &&
                         (action in {"helper.update", "core.update", "core.install"} ==>
                            NoUpdateUnderWay(QueueOf(old(s.queues), server), StatusOf(old(s.statuses), server).update,
                                             s.job, server, now, batch))
    ensures r.Some? ==> r.value == Command(id.value, action, payload, now, now + if batch then 300 else 900,
                                           s.identities[server].tokenHash)
    ensures forall k :: StatusOf(s.statuses, k) ==
                        if r.Some? && k == server && action in {"helper.update", "core.update", "core.install"} then
                          StatusOf(old(s.statuses), k).(update :=
                            Some(Progress(if action == "helper.update" then HelperPart else CorePart, Dispatching,
                                          if payload.Artifact? then payload.version else "", "", now, now)))
                        else StatusOf(old(s.statuses), k)
  {
    CanEnqueueIs(s.identities, QueueOf(s.queues, server), StatusOf(s.statuses, server).update, s.job, server, action,
                 now, batch);
    var queue := QueueOf(s.queues, server);
    if IsUpdate(action) &&
       (UpgradeInProgress(queue, StatusOf(s.statuses, server).update, now) || (!batch && Busy(s.job, server))) {
      return None;
    }
    if server !in s.identities || s.identities[server].tokenHash == "" {
      return None;
    }
    if |queue| >= QUEUE_MAX || id.None? {
      return None;
    }
    var command := NewCommand(id.value, action, payload, now, batch, s.identities[server].tokenHash);
    s.queues := s.queues[server := queue + [command]];
    s.statuses := WithUpdate(s.statuses, server, action, payload, now);
    return Some(command);
  }

  ghost predicate SameQueues(before: map<string, seq<Command>>, after: map<string, seq<Command>>) {
    forall k :: QueueOf(after, k) == QueueOf(before, k)
  }

  ghost predicate SameStatuses(before: map<string, Status>, after: map<string, Status>) {
    forall k :: StatusOf(after, k) == StatusOf(before, k)
  }

  ghost predicate SameResults(before: map<string, seq<Result>>, after: map<string, seq<Result>>) {
    forall k :: ResultsOf(after, k) == ResultsOf(before, k)
  }

  /** An administrator's command: kept only if it reaches the disk. */
  method Enqueue(s: HelperState, server: string, action: string, payload: Payload, now: int, id: Option<string>,
                 saveOk: bool)
    returns (r: Option<Command>)
    modifies s`queues, s`statuses
    ensures r.Some? <==> saveOk && id.Some? && server in s.identities && s.identities[server].tokenHash != "" &&
                         |QueueOf(old(s.queues), server)| < 16 &&
                         (action in {"helper.update", "core.update", "core.install"} ==>
                            NoUpdateUnderWay(QueueOf(old(s.queues), server), StatusOf(old(s.statuses), server).update,
                                             s.job, server, now, false))
    ensures r.None? ==> SameQueues(old(s.queues), s.queues) && SameStatuses(old(s.statuses), s.statuses)
    ensures r.Some? ==> r.value == Command(id.value, action, payload, now, now + 900, s.identities[server].tokenHash)
    ensures r.Some? ==> s.queues == old(s.queues)[server := QueueOf(old(s.queues), server) + [r.value]]
    ensures |QueueOf(old(s.queues), server)| <= QUEUE_MAX ==> |QueueOf(s.queues, server)| <= QUEUE_MAX
    ensures forall k :: Stepped(QueueOf(old(s.queues), k), QueueOf(s.queues, k), if k == server then r else None)
  {
    var queue, status := QueueOf(s.queues, server), StatusOf(s.statuses, server);
    r := EnqueueLocked(s, server, action, payload, now, false, id);
    if r.Some? && !saveOk {
      s.queues := s.queues[server := queue];
      s.statuses := s.statuses[server := status];
      r := None;
    }
    forall k
      ensures Stepped(QueueOf(old(s.queues), k), QueueOf(s.queues, k), if k == server then r else None)
    {
      StayingIsAStep(QueueOf(old(s.queues), k));
      if k == server && r.Some? {
        AppendingIsAStep(QueueOf(old(s.queues), k), r.value);
      }
    }
  }

  // ---------- reports ----------

  datatype Report = Report(status: Status, result: Option<Result>)

  predicate AcceptsPending(identity: Identity, tokenHash: string, now: int) {
    identity.pendingHash != "" && identity.pendingHash == tokenHash && now < identity.pendingExpires
  }

  predicate Authorised(identity: Identity, tokenHash: string, now: int) {
    identity.tokenHash == tokenHash || AcceptsPending(identity, tokenHash, now)
  }

  predicate InQueue(queue: seq<Command>, id: string) {
    exists c :: c in queue && c.id == id
  }

  /** A result that is not signed with the reporter's key, for a command still in the queue. */
  predicate Forged(queue: seq<Command>, tokenHash: string, result: Option<Result>) {
    result.Some? && result.value.signedBy != tokenHash && InQueue(queue, result.value.commandId)
  }

  /** The result that counts: one with a wrong signature is dropped. */
  function Genuine(tokenHash: string, result: Option<Result>): Option<Result> {
    if result.Some? && result.value.signedBy == tokenHash then result else None
  }

  predicate Acknowledges(queue: seq<Command>, result: Option<Result>) {
    result.Some? && queue != [] && queue[0].id == result.value.commandId && queue[0].action == result.value.action
  }

  function DropExpired(queue: seq<Command>, now: int): seq<Command> {
    if queue != [] && now > queue[0].expiresAt then DropExpired(queue[1..], now) else queue
  }

  /** What a report leaves in the queue. */
  function Remaining(queue: seq<Command>, result: Option<Result>, now: int): seq<Command> {
    DropExpired(if Acknowledges(queue, result) then queue[1..] else queue, now)
  }

  function Resigned(queue: seq<Command>, tokenHash: string): (r: seq<Command>)
    ensures |r| == |queue| && forall i :: 0 <= i < |queue| ==> r[i] == queue[i].(signedBy := tokenHash)
  {
    seq(|queue|, i requires 0 <= i < |queue| => queue[i].(signedBy := tokenHash))
  }

  /** The last results, as many as are kept. */
  function KeepLast(history: seq<Result>): (r: seq<Result>)
    ensures |r| == if |history| < HISTORY_MAX then |history| else HISTORY_MAX
    ensures r == history[|history| - |r|..]
  {
    if |history| > HISTORY_MAX then history[|history| - HISTORY_MAX..] else history
  }

  predicate Contains(text: string, part: string) {
    exists i :: 0 <= i <= |text| - |part| && text[i..][..|part|] == part
  }

  /** The update is over once the target version is observed. */
  function CompleteObserved(update: Option<Progress>, status: Status, now: int): Option<Progress> {
    if update.None? || update.value.target == "" || Terminal(update.value.phase) then update
    else
      var installed := if update.value.component == HelperPart then status.helperVersion else status.coreVersion;
      if installed == update.value.target ||
         (update.value.component == CorePart && Contains(installed, update.value.target)) then
        Some(update.value.(phase := Success, message := "", updatedAt := now))
      else update
  }

  predicate ActionOf(component: Component, action: string) {
    match component
    case HelperPart => action == "helper.update"
    case CorePart => action == "core.update" || action == "core.install"
  }

  /** The update is over, too, once its own command reports a failure. */
  function FailReported(update: Option<Progress>, acknowledged: bool, result: Option<Result>,
                        now: int): Option<Progress> {
    if acknowledged && result.Some? && !result.value.success && UpdateRunning(update) &&
       ActionOf(update.value.component, result.value.action) then
      Some(update.value.(phase := Failed, message := result.value.message, updatedAt := now))
    else update
  }

  function ReportedStatus(previous: Status, reported: Status, acknowledged: bool, result: Option<Result>,
                          now: int): Status {
    var update := if reported.update.None? then CompleteObserved(previous.update, reported, now) else reported.update;
    reported.(reportedAt := Some(now), update := FailReported(update, acknowledged, result, now))
  }

  predicate PersistentMachineId(id: string) {
    8 <= |id| <= 128 &&
    forall c :: c in id ==> 'a' <= c <= 'z' || 'A' <= c <= 'Z' || '0' <= c <= '9' || c == '-' || c == '_'
  }

  function Promoted(identity: Identity, tokenHash: string): Identity {
    identity.(tokenHash := tokenHash, pendingHash := "", pendingExpires := 0)
  }

  function IdentityAfter(identity: Identity, report: Option<Report>, tokenHash: string, promote: bool): Identity {
    var seen := if report.Some? && PersistentMachineId(report.value.status.machineId)
                  then identity.(machineId := report.value.status.machineId) else identity;
    if promote then Promoted(seen, tokenHash) else seen
  }

  datatype Answer = Rejected | Unsaved | Answered(command: Option<Command>)

  method SkipExpired(queue: seq<Command>, now: int) returns (r: seq<Command>)
    ensures r == DropExpired(queue, now)
  {
    r := queue;
    while r != [] && now > r[0].expiresAt
      invariant DropExpired(r, now) == DropExpired(queue, now)
      decreases |r|
    {
      r := r[1..];
    }
  }

  method SignAnew(queue: seq<Command>, tokenHash: string) returns (r: seq<Command>)
    ensures r == Resigned(queue, tokenHash)
  {
    r := queue;
    for i := 0 to |r|
      invariant |r| == |queue|
      invariant forall k :: 0 <= k < i ==> r[k] == queue[k].(signedBy := tokenHash)
      invariant forall k :: i <= k < |r| ==> r[k] == queue[k]
    {
      r := r[i := r[i].(signedBy := tokenHash)];
    }
  }

  method FindInQueue(queue: seq<Command>, id: string) returns (found: bool)
    ensures found <==> InQueue(queue, id)
  {
    for i := 0 to |queue|
      invariant forall c :: c in queue[..i] ==> c.id != id
    {
      if queue[i].id == id {
        return true;
      }
    }
    return false;
  }

  /** Whether a report changes more than what every report refreshes. */
  predicate MustSave(promote: bool, shorter: bool, rebound: bool, report: Option<Report>, result: Option<Result>,
                     before: Status, after: Status) {
    promote || shorter || rebound ||
    (report.Some? && (result.Some? || before.(reportedAt := None) != after.(reportedAt := None)))
  }

  function SignedResult(report: Option<Report>, tokenHash: string): Option<Result> {
    if report.Some? then Genuine(tokenHash, report.value.result) else None
  }

  function QueueAfter(queue: seq<Command>, report: Option<Report>, tokenHash: string, promote: bool,
                      now: int): seq<Command> {
    var remaining := Remaining(queue, SignedResult(report, tokenHash), now);
    if promote then Resigned(remaining, tokenHash) else remaining
  }

  function HistoryAfter(history: seq<Result>, report: Option<Report>, tokenHash: string): seq<Result> {
    var result := SignedResult(report, tokenHash);
    if result.Some? then KeepLast(history + [result.value]) else history
  }

  function StatusAfter(status: Status, queue: seq<Command>, report: Option<Report>, tokenHash: string,
                       now: int): Status {
    var result := SignedResult(report, tokenHash);
    if report.Some? then ReportedStatus(status, report.value.status, Acknowledges(queue, result), result, now)
    else status
  }

  /** Whether the report is taken, and the result in it that counts. */
  method Review(identity: Identity, queue: seq<Command>, tokenHash: string, report: Option<Report>, now: int)
    returns (taken: bool, result: Option<Result>)
    ensures taken <==> Authorised(identity, tokenHash, now) &&
                       !(report.Some? && Forged(queue, tokenHash, report.value.result))
    ensures taken ==> result == SignedResult(report, tokenHash)
  {
    if !Authorised(identity, tokenHash, now) {
      return false, None;
    }
    if report.None? || report.value.result.None? {
      return true, None;
    }
    if report.value.result.value.signedBy == tokenHash {
      return true, report.value.result;
    }
    var queued := FindInQueue(queue, report.value.result.value.commandId);
    return !queued, None;
  }

  method TrimQueue(queue: seq<Command>, report: Option<Report>, result: Option<Result>, tokenHash: string,
                   promote: bool, now: int) returns (rest: seq<Command>)
    requires result == SignedResult(report, tokenHash)
    ensures rest == QueueAfter(queue, report, tokenHash, promote, now)
  {
    rest := queue;
    if Acknowledges(queue, result) {
      rest := queue[1..];
    }
    rest := SkipExpired(rest, now);
    if promote {
      rest := SignAnew(rest, tokenHash);
    }
  }

  /** What the state holds for one server. */
  datatype Entry = Entry(identity: Identity, queue: seq<Command>, history: seq<Result>, status: Status)

  method Put(s: HelperState, server: string, entry: Entry)
    modifies s`identities, s`queues, s`results, s`statuses
    ensures s.identities == old(s.identities)[server := entry.identity] &&
            s.queues == old(s.queues)[server := entry.queue]
    ensures s.results == old(s.results)[server := entry.history] &&
            s.statuses == old(s.statuses)[server := entry.status]
  {
    s.identities := s.identities[server := entry.identity];
    s.queues := s.queues[server := entry.queue];
    s.results := s.results[server := entry.history];
    s.statuses := s.statuses[server := entry.status];
  }

  lemma PutBack(identities: map<string, Identity>, queues: map<string, seq<Command>>,
                results: map<string, seq<Result>>, statuses: map<string, Status>, server: string, before: Entry,
                after: Entry)
    requires server in identities
    requires before == Entry(identities[server], QueueOf(queues, server), ResultsOf(results, server),
                             StatusOf(statuses, server))
    ensures identities[server := after.identity][server := before.identity] == identities
    ensures SameQueues(queues, queues[server := after.queue][server := before.queue])
    ensures SameResults(results, results[server := after.history][server := before.history])
    ensures SameStatuses(statuses, statuses[server := after.status][server := before.status])
  {
  }

  /** Puts the new entry in place, and the previous one back if a needed save fails. */
  method Commit(s: HelperState, server: string, before: Entry, after: Entry, mustSave: bool, saveOk: bool)
    returns (done: bool)
    requires server in s.identities
    requires before == Entry(s.identities[server], QueueOf(s.queues, server), ResultsOf(s.results, server),
                             StatusOf(s.statuses, server))
    modifies s`identities, s`queues, s`results, s`statuses
    ensures done <==> saveOk || !mustSave
    ensures !done ==> s.identities == old(s.identities) && SameQueues(old(s.queues), s.queues) &&
                      SameResults(old(s.results), s.results) && SameStatuses(old(s.statuses), s.statuses)
    ensures done ==> s.identities == old(s.identities)[server := after.identity] &&
                     s.queues == old(s.queues)[server := after.queue] &&
                     s.results == old(s.results)[server := after.history] &&
                     s.statuses == old(s.statuses)[server := after.status]
  {
    Put(s, server, after);
    if mustSave && !saveOk {
      Put(s, server, before);
      PutBack(old(s.identities), old(s.queues), old(s.results), old(s.statuses), server, before, after);
      return false;
    }
    return true;
  }

  /** At a promotion the core-mode intent takes over the machine. */
  function IntentsAfter(intents: map<string, Intent>, server: string, promote: bool, machineId: string)
    : map<string, Intent> {
    if promote && server in intents then intents[server := intents[server].(machineId := machineId)] else intents
  }

  lemma TrimmedStays(queues: map<string, seq<Command>>, server: string, report: Option<Report>, tokenHash: string,
                     promote: bool, now: int)
    ensures var after := queues[server := QueueAfter(QueueOf(queues, server), report, tokenHash, promote, now)];
            forall k :: Stepped(QueueOf(queues, k), QueueOf(after, k), None)
  {
    var after := queues[server := QueueAfter(QueueOf(queues, server), report, tokenHash, promote, now)];
    forall k
      ensures Stepped(QueueOf(queues, k), QueueOf(after, k), None)
    {
      if k == server {
        ReportIsAStep(QueueOf(queues, server), report, tokenHash, promote, now);
      } else {
        StayingIsAStep(QueueOf(queues, k));
      }
    }
  }

  lemma NothingStepped(before: map<string, seq<Command>>, after: map<string, seq<Command>>)
    requires SameQueues(before, after)
    ensures forall k :: Stepped(QueueOf(before, k), QueueOf(after, k), None)
  {
    forall k
      ensures Stepped(QueueOf(before, k), QueueOf(after, k), None)
    {
      StayingIsAStep(QueueOf(before, k));
    }
  }

  /** What a report can change. */
  datatype Records = Records(identities: map<string, Identity>, queues: map<string, seq<Command>>,
                             results: map<string, seq<Result>>, statuses: map<string, Status>,
                             intents: map<string, Intent>)

  ghost function StateOf(s: HelperState): Records
    reads s
  {
    Records(s.identities, s.queues, s.results, s.statuses, s.intents)
  }

  ghost predicate SameState(a: Records, b: Records) {
    a.identities == b.identities && SameQueues(a.queues, b.queues) && SameResults(a.results, b.results) &&
    SameStatuses(a.statuses, b.statuses) && a.intents == b.intents
  }

  /** The report is not from the server's helper, or claims a result that another key signed for a
      command still in the queue. */
  ghost predicate Refused(a: Records, server: string, tokenHash: string, report: Option<Report>, now: int) {
    server !in a.identities ||
    (a.identities[server].tokenHash != tokenHash && !Promotes(a.identities[server], tokenHash, now)) ||
    (report.Some? && report.value.result.Some? && report.value.result.value.signedBy != tokenHash &&
     exists c :: c in QueueOf(a.queues, server) && c.id == report.value.result.value.commandId)
  }

  /** Whether the state after the report has to be saved. */
  ghost predicate NeedsSave(a: Records, server: string, tokenHash: string, report: Option<Report>, now: int)
    requires server in a.identities
  {
    var identity, queue, status := a.identities[server], QueueOf(a.queues, server), StatusOf(a.statuses, server);
    var promote := AcceptsPending(identity, tokenHash, now);
    MustSave(promote, |QueueAfter(queue, report, tokenHash, promote, now)| != |queue|,
             IdentityAfter(identity, report, tokenHash, promote).machineId != identity.machineId, report,
             SignedResult(report, tokenHash), status, StatusAfter(status, queue, report, tokenHash, now))
  }

  /** The state after a report that is taken and, if need be, saved. */
  ghost function AfterReport(a: Records, server: string, tokenHash: string, report: Option<Report>, now: int): Records
    requires server in a.identities
  {
    var queue, promote := QueueOf(a.queues, server), AcceptsPending(a.identities[server], tokenHash, now);
    var identity := IdentityAfter(a.identities[server], report, tokenHash, promote);
    Records(a.identities[server := identity],
            a.queues[server := QueueAfter(queue, report, tokenHash, promote, now)],
            a.results[server := HistoryAfter(ResultsOf(a.results, server), report, tokenHash)],
            a.statuses[server := StatusAfter(StatusOf(a.statuses, server), queue, report, tokenHash, now)],
            IntentsAfter(a.intents, server, promote, identity.machineId))
  }

  // ---------- what a report does, record by record ----------

  /** The credential is the pending one of the identity and has not expired. */
  ghost predicate Promotes(identity: Identity, tokenHash: string, now: int) {
    identity.pendingHash == tokenHash != "" && now < identity.pendingExpires
  }

  /** The report carries a result, signed with the reporter's key. */
  ghost predicate Counts(report: Option<Report>, tokenHash: string) {
    report.Some? && report.value.result.Some? && report.value.result.value.signedBy == tokenHash
  }

  /** The result is that of the command at the front. */
  ghost predicate Answers(queue: seq<Command>, report: Option<Report>, tokenHash: string) {
    Counts(report, tokenHash) && queue != [] && queue[0].id == report.value.result.value.commandId &&
    queue[0].action == report.value.result.value.action
  }

  /** The queue without the answered command and the expired ones then at its front; a promotion
      signs the rest anew. */
  ghost predicate QueueTrimmed(before: seq<Command>, after: seq<Command>, answered: bool, tokenHash: string,
                               promote: bool, now: int) {
    |after| <= |before| &&
    var n := |before| - |after|;
    (answered ==> n > 0) && (forall i :: 0 <= i < n ==> now > before[i].expiresAt || (i == 0 && answered)) &&
    (n < |before| ==> now <= before[n].expiresAt) &&
    forall i :: 0 <= i < |after| ==>
                  after[i] == if promote then before[n + i].(signedBy := tokenHash) else before[n + i]
  }

  lemma SuffixIsTrimmed(queue: seq<Command>, n: nat, answered: bool, tokenHash: string, promote: bool, now: int)
    requires n <= |queue| && (answered ==> n > 0)
    requires forall i :: 0 <= i < n ==> now > queue[i].expiresAt || (i == 0 && answered)
    requires n < |queue| ==> now <= queue[n].expiresAt
    ensures QueueTrimmed(queue, if promote then Resigned(queue[n..], tokenHash) else queue[n..], answered, tokenHash,
                         promote, now)
  {
  }

  lemma QueueAfterIs(queue: seq<Command>, report: Option<Report>, tokenHash: string, promote: bool, now: int)
    ensures QueueTrimmed(queue, QueueAfter(queue, report, tokenHash, promote, now), Answers(queue, report, tokenHash),
                         tokenHash, promote, now)
  {
    var n := RemainingIsASuffix(queue, SignedResult(report, tokenHash), now);
    SuffixIsTrimmed(queue, n, Answers(queue, report, tokenHash), tokenHash, promote, now);
  }

  /** The history gains the result that counts and keeps no more than twenty. */
  ghost predicate HistoryExtended(before: seq<Result>, after: seq<Result>, report: Option<Report>, tokenHash: string) {
    if Counts(report, tokenHash) then
      |after| == (if |before| < 20 then |before| + 1 else 20) && after[|after| - 1] == report.value.result.value &&
      forall i :: 0 <= i < |after| - 1 ==> after[i] == before[|before| + 1 - |after| + i]
    else after == before
  }

  /** The update is seen to be over: it runs towards a target that the report names as installed. */
  ghost predicate Observed(update: Option<Progress>, status: Status) {
    update.Some? && update.value.phase !in {Success, Failed, RolledBack} && update.value.target != "" &&
    match update.value.component
    case HelperPart => status.helperVersion == update.value.target
    case CorePart => status.coreVersion == update.value.target || Contains(status.coreVersion, update.value.target)
  }

  /** The progress on record: the one reported, or else the previous one, as a success once the target
      is installed; and as a failure if the running update's own command is answered with one. */
  ghost predicate UpdateReported(before: Option<Progress>, after: Option<Progress>, status: Status,
                                 failure: Option<Result>, now: int) {
    var shown := if status.update.Some? then status.update
                 else if Observed(before, status) then
                   Some(before.value.(phase := Success, message := "", updatedAt := now))
                 else before;
    if failure.Some? && shown.Some? && shown.value.phase !in {Success, Failed, RolledBack} &&
       (failure.value.action == "helper.update" <==> shown.value.component == HelperPart) &&
       failure.value.action in {"helper.update", "core.update", "core.install"} then
      after == Some(shown.value.(phase := Failed, message := failure.value.message, updatedAt := now))
    else after == shown
  }

  ghost predicate StatusReported(before: Status, after: Status, queue: seq<Command>, report: Option<Report>,
                                 tokenHash: string, now: int) {
    if report.None? then after == before
    else
      after == report.value.status.(reportedAt := Some(now), update := after.update) &&
      UpdateReported(before.update, after.update, report.value.status,
                     if Answers(queue, report, tokenHash) && !report.value.result.value.success then report.value.result
                     else None, now)
  }

  lemma StatusAfterIs(status: Status, queue: seq<Command>, report: Option<Report>, tokenHash: string, now: int)
    ensures StatusReported(status, StatusAfter(status, queue, report, tokenHash, now), queue, report, tokenHash, now)
  {
  }

  ghost predicate OthersStay(a: Records, b: Records, server: string) {
    forall k :: k != server ==> QueueOf(b.queues, k) == QueueOf(a.queues, k) &&
                                ResultsOf(b.results, k) == ResultsOf(a.results, k) &&
                                StatusOf(b.statuses, k) == StatusOf(a.statuses, k)
  }

  /** The identity with the machine that the report names, if that is a proper identifier, and
      with the pending credential as its current one after a promotion. */
  ghost predicate IdentityReported(was: Identity, after: Identity, report: Option<Report>, tokenHash: string,
                                   now: int) {
    var machineId := if report.Some? && PersistentMachineId(report.value.status.machineId)
                       then report.value.status.machineId else was.machineId;
    after == if Promotes(was, tokenHash, now) then Identity(was.uuid, tokenHash, "", 0, machineId)
             else was.(machineId := machineId)
  }

  /** Nothing else of the identities changes, and a promotion moves the core-mode intent along. */
  ghost predicate OneIdentityMoves(a: Records, b: Records, server: string, promote: bool)
    requires server in a.identities
  {
    && server in b.identities && b.identities == a.identities[server := b.identities[server]]
    && b.intents == if promote && server in a.intents
                      then a.intents[server := a.intents[server].(machineId := b.identities[server].machineId)]
                    else a.intents
  }

  /** What a report that is taken changes: identity, queue, history, status and intent of its server,
      and of no other. */
  ghost predicate ReportDone(a: Records, b: Records, server: string, tokenHash: string, report: Option<Report>,
                             now: int)
    requires server in a.identities
  {
    var was, queue, promote := a.identities[server], QueueOf(a.queues, server),
                               Promotes(a.identities[server], tokenHash, now);
    && OthersStay(a, b, server) && OneIdentityMoves(a, b, server, promote)
    && IdentityReported(was, b.identities[server], report, tokenHash, now)
    && QueueTrimmed(queue, QueueOf(b.queues, server), Answers(queue, report, tokenHash), tokenHash, promote, now)
    && HistoryExtended(ResultsOf(a.results, server), ResultsOf(b.results, server), report, tokenHash)
    && StatusReported(StatusOf(a.statuses, server), StatusOf(b.statuses, server), queue, report, tokenHash, now)
  }

  lemma OneServerChanges(a: Records, server: string, identity: Identity, queue: seq<Command>, history: seq<Result>,
                         status: Status, promote: bool)
    requires server in a.identities
    ensures var b := Records(a.identities[server := identity], a.queues[server := queue], a.results[server := history],
                             a.statuses[server := status],
                             IntentsAfter(a.intents, server, promote, identity.machineId));
            OthersStay(a, b, server) && OneIdentityMoves(a, b, server, promote) && b.identities[server] == identity &&
            QueueOf(b.queues, server) == queue && ResultsOf(b.results, server) == history &&
            StatusOf(b.statuses, server) == status
  {
  }

  lemma IdentityAfterIs(was: Identity, report: Option<Report>, tokenHash: string, now: int)
    ensures AcceptsPending(was, tokenHash, now) == Promotes(was, tokenHash, now)
    ensures IdentityReported(was, IdentityAfter(was, report, tokenHash, Promotes(was, tokenHash, now)), report,
                             tokenHash,
                             now)
  {
  }

  lemma HistoryAfterIs(history: seq<Result>, report: Option<Report>, tokenHash: string)
    ensures HistoryExtended(history, HistoryAfter(history, report, tokenHash), report, tokenHash)
  {
  }

  lemma AfterReportIs(a: Records, server: string, tokenHash: string, report: Option<Report>, now: int)
    requires server in a.identities
    ensures ReportDone(a, AfterReport(a, server, tokenHash, report, now), server, tokenHash, report, now)
  {
    var was, queue := a.identities[server], QueueOf(a.queues, server);
    var history, status := ResultsOf(a.results, server), StatusOf(a.statuses, server);
    var promote := Promotes(was, tokenHash, now);
    IdentityAfterIs(was, report, tokenHash, now);
    QueueAfterIs(queue, report, tokenHash, promote, now);
    HistoryAfterIs(history, report, tokenHash);
    StatusAfterIs(status, queue, report, tokenHash, now);
    var identity := IdentityAfter(was, report, tokenHash, promote);
    OneServerChanges(a, server, identity, QueueAfter(queue, report, tokenHash, promote, now),
                     HistoryAfter(history, report, tokenHash), StatusAfter(status, queue, report, tokenHash, now),
                     promote);
  }

  /** The report promotes, shortens the queue, moves the machine, brings a result, or changes more of
      the status than its time. */
  ghost predicate Durable(a: Records, server: string, tokenHash: string, report: Option<Report>, now: int)
    requires server in a.identities
  {
    var was, queue, status := a.identities[server], QueueOf(a.queues, server), StatusOf(a.statuses, server);
    var promote := Promotes(was, tokenHash, now);
    || promote
    || |QueueAfter(queue, report, tokenHash, promote, now)| < |queue|
    || (report.Some? && PersistentMachineId(report.value.status.machineId) &&
        report.value.status.machineId != was.machineId)
    || Counts(report, tokenHash)
    || (report.Some? &&
        StatusAfter(status, queue, report, tokenHash, now).(reportedAt := None) != status.(reportedAt := None))
  }

  lemma NeedsSaveIs(a: Records, server: string, tokenHash: string, report: Option<Report>, now: int)
    requires server in a.identities
    ensures NeedsSave(a, server, tokenHash, report, now) <==> Durable(a, server, tokenHash, report, now)
  {
    var was, queue := a.identities[server], QueueOf(a.queues, server);
    var promote := Promotes(was, tokenHash, now);
    assert |QueueAfter(queue, report, tokenHash, promote, now)| <= |queue| by {
      QueueAfterIs(queue, report, tokenHash, promote, now);
    }
    IdentityAfterIs(was, report, tokenHash, now);
    assert Counts(report, tokenHash) <==> SignedResult(report, tokenHash).Some?;
  }

  /** What a report leads to: refused, undone because a save that was needed failed, or answered
      with the head of the queue. */
  ghost predicate ReportStep(a: Records, b: Records, server: string, tokenHash: string, report: Option<Report>,
                             now: int, saveOk: bool, answer: Answer) {
    if Refused(a, server, tokenHash, report, now) then answer == Rejected && SameState(a, b)
    else if NeedsSave(a, server, tokenHash, report, now) && !saveOk then answer == Unsaved && SameState(a, b)
    else
      b == AfterReport(a, server, tokenHash, report, now) &&
      answer == Answered(if b.queues[server] == [] then None else Some(b.queues[server][0]))
  }

  /** A report leaves in the queue, history, status, identity and intent of its server what the
      functions above say, and nothing changes elsewhere. */
  method AcceptReport(s: HelperState, server: string, tokenHash: string, report: Option<Report>, now: int, saveOk: bool)
    returns (answer: Answer)
    modifies s`identities, s`queues, s`results, s`statuses, s`intents
    ensures ReportStep(old(StateOf(s)), StateOf(s), server, tokenHash, report, now, saveOk, answer)
    ensures answer.Answered? ==> server in old(s.identities) &&
                                 ReportDone(old(StateOf(s)), StateOf(s), server, tokenHash, report, now)
    ensures answer == Rejected <==> Refused(old(StateOf(s)), server, tokenHash, report, now)
    ensures answer == Unsaved <==> !saveOk && !Refused(old(StateOf(s)), server, tokenHash, report, now) &&
                                   Durable(old(StateOf(s)), server, tokenHash, report, now)
    ensures forall k :: Stepped(QueueOf(old(s.queues), k), QueueOf(s.queues, k), None)
  {
    answer := TakeReport(s, server, tokenHash, report, now, saveOk);
    if server in old(s.identities) {
      NeedsSaveIs(old(StateOf(s)), server, tokenHash, report, now);
    }
    if answer.Answered? {
      AfterReportIs(old(StateOf(s)), server, tokenHash, report, now);
      TrimmedStays(old(s.queues), server, report, tokenHash, AcceptsPending(old(s.identities)[server], tokenHash, now),
                   now);
    } else {
      NothingStepped(old(s.queues), s.queues);
    }
  }

  method TakeReport(s: HelperState, server: string, tokenHash: string, report: Option<Report>, now: int, saveOk: bool)
    returns (answer: Answer)
    modifies s`identities, s`queues, s`results, s`statuses, s`intents
    ensures ReportStep(old(StateOf(s)), StateOf(s), server, tokenHash, report, now, saveOk, answer)
  {
    if server !in s.identities {
      return Rejected;
    }
    var identity, queue := s.identities[server], QueueOf(s.queues, server);
    var history, status := ResultsOf(s.results, server), StatusOf(s.statuses, server);
    var taken, result := Review(identity, queue, tokenHash, report, now);
    if !taken {
      return Rejected;
    }
    var promote := AcceptsPending(identity, tokenHash, now);
    var rest := TrimQueue(queue, report, result, tokenHash, promote, now);
    var after, reported := IdentityAfter(identity, report, tokenHash, promote),
                           StatusAfter(status, queue, report, tokenHash, now);
    var intents := s.intents;
    s.intents := IntentsAfter(s.intents, server, promote, after.machineId);
    var before := Entry(identity, queue, history, status);
    var done := Commit(s, server, before, Entry(after, rest, HistoryAfter(history, report, tokenHash), reported),
                       MustSave(promote, |rest| != |queue|, after.machineId != identity.machineId, report, result,
                                status, reported), saveOk);
    if !done {
      s.intents := intents;
      return Unsaved;
    }
    return Answered(if rest == [] then None else Some(rest[0]));
  }

  lemma {:induction false} ExpiredHeads(queue: seq<Command>, now: int) returns (n: nat)
    ensures n <= |queue| && DropExpired(queue, now) == queue[n..]
    ensures forall i :: 0 <= i < n ==> now > queue[i].expiresAt
    ensures n < |queue| ==> now <= queue[n].expiresAt
  {
    if queue != [] && now > queue[0].expiresAt {
      var m := ExpiredHeads(queue[1..], now);
      n := m + 1;
      assert queue[1..][m..] == queue[n..];
      forall i | 0 <= i < n ensures now > queue[i].expiresAt {
        if i > 0 {
          assert queue[1..][i - 1] == queue[i];
        }
      }
    } else {
      n := 0;
    }
  }

  lemma RemainingIsASuffix(queue: seq<Command>, result: Option<Result>, now: int) returns (n: nat)
    ensures n <= |queue| && Remaining(queue, result, now) == queue[n..]
    ensures forall i :: 0 <= i < n ==> now > queue[i].expiresAt || (i == 0 && Acknowledges(queue, result))
    ensures n < |queue| ==> now <= queue[n].expiresAt
    ensures Acknowledges(queue, result) ==> n > 0
  {
    if Acknowledges(queue, result) {
      var m := ExpiredHeads(queue[1..], now);
      n := m + 1;
      assert queue[1..][m..] == queue[n..];
      forall i | 0 < i < n ensures now > queue[i].expiresAt {
        assert queue[1..][i - 1] == queue[i];
      }
    } else {
      n := ExpiredHeads(queue, now);
    }
  }

  /** A report only takes commands off the front: the first if it acknowledges it, and expired
      ones.  What is then at the front has not expired. */
  lemma ReportTakesHeads(queue: seq<Command>, report: Option<Report>, tokenHash: string, promote: bool, now: int)
    returns (n: nat)
    ensures n <= |queue| && Bodies(QueueAfter(queue, report, tokenHash, promote, now)) == Bodies(queue)[n..]
    ensures forall i :: 0 <= i < n ==>
                          now > queue[i].expiresAt || (i == 0 && Acknowledges(queue, SignedResult(report, tokenHash)))
    ensures var after := QueueAfter(queue, report, tokenHash, promote, now); after != [] ==> now <= after[0].expiresAt
    ensures promote ==> forall c :: c in QueueAfter(queue, report, tokenHash, promote, now) ==> c.signedBy == tokenHash
  {
    n := RemainingIsASuffix(queue, SignedResult(report, tokenHash), now);
    BodiesOfSuffix(queue, n);
    assert Bodies(QueueAfter(queue, report, tokenHash, promote, now)) == Bodies(queue[n..]);
  }

  lemma ReportIsAStep(queue: seq<Command>, report: Option<Report>, tokenHash: string, promote: bool, now: int)
    ensures Subsequence(Bodies(QueueAfter(queue, report, tokenHash, promote, now)), Bodies(queue))
  {
    var n := ReportTakesHeads(queue, report, tokenHash, promote, now);
    DroppingIsAStep(queue, n);
    BodiesOfSuffix(queue, n);
  }

  // ---------- updates that have gone silent ----------

  predicate Silent(queue: seq<Command>, status: Status, job: Option<Job>, server: string, now: int) {
    UpdateRunning(status.update) && now - status.update.value.updatedAt >= COMMAND_TTL && !UpdateQueued(queue, now) &&
    !Busy(job, server)
  }

  const SILENT_MESSAGE := "no upgrade progress"

  function FailSilent(status: Status, now: int): Status
    requires status.update.Some?
  {
    status.(update := Some(status.update.value.(phase := Failed, message := SILENT_MESSAGE, updatedAt := now)))
  }

  function WithoutUpdates(queue: seq<Command>): seq<Command> {
    if queue == [] then []
    else
      var last := queue[|queue| - 1];
      WithoutUpdates(queue[..|queue| - 1]) + if IsUpdate(last.action) then [] else [last]
  }

  lemma {:induction false} WithoutUpdatesCounts(queue: seq<Command>, c: Command)
    ensures multiset(WithoutUpdates(queue))[c] ==
            if c.action in {"helper.update", "core.update", "core.install"} then 0 else multiset(queue)[c]
  {
    if queue != [] {
      WithoutUpdatesCounts(queue[..|queue| - 1], c);
      assert queue == queue[..|queue| - 1] + [queue[|queue| - 1]];
    }
  }

  method DropUpdates(queue: seq<Command>) returns (kept: seq<Command>)
    ensures kept == WithoutUpdates(queue)
  {
    kept := [];
    for i := 0 to |queue|
      invariant kept == WithoutUpdates(queue[..i])
    {
      assert queue[..i + 1][..i] == queue[..i];
      if !IsUpdate(queue[i].action) {
        kept := kept + [queue[i]];
      }
    }
    assert queue[..|queue|] == queue;
  }

  /** Whether a server has been handled, or still is as it was. */
  ghost predicate Settled(queue0: seq<Command>, status0: Status, queue: seq<Command>, status: Status, job: Option<Job>,
                          server: string, now: int) {
    if Silent(queue0, status0, job, server, now)
      then queue == WithoutUpdates(queue0) && status == FailSilent(status0, now)
    else queue == queue0 && status == status0
  }

  /** A running update that nothing has been heard of for 15 minutes, with no update command left that
      could run and no batch to look after it, has failed; of its queue only the update commands go. */
  ghost predicate SilentFailed(queue0: seq<Command>, status0: Status, queue: seq<Command>, status: Status,
                               job: Option<Job>, server: string, now: int) {
    if status0.update.Some? && status0.update.value.phase !in {Success, Failed, RolledBack} &&
       NoUpdateUnderWay(queue0, status0.update, job, server, now, false) then
      && status.update.Some?
      && status == status0.(update := Some(status0.update.value.(phase := Failed, updatedAt := now,
                                                                 message := status.update.value.message)))
      && forall c :: multiset(queue)[c] == if c.action in {"helper.update", "core.update", "core.install"} then 0
                                           else multiset(queue0)[c]
    else queue == queue0 && status == status0
  }

  lemma SettledMeans(queue0: seq<Command>, status0: Status, queue: seq<Command>, status: Status, job: Option<Job>,
                     server: string, now: int)
    requires Settled(queue0, status0, queue, status, job, server, now)
    ensures SilentFailed(queue0, status0, queue, status, job, server, now)
  {
    NoUpdateUnderWayIs(queue0, status0.update, job, server, now, false);
    forall c
      ensures multiset(WithoutUpdates(queue0))[c] ==
              if c.action in {"helper.update", "core.update", "core.install"} then 0 else multiset(queue0)[c]
    {
      WithoutUpdatesCounts(queue0, c);
    }
  }

  /** Fails every update that has gone silent and has no command left that could still run;
      the statuses are visited in any order. */
  method ExpireStale(s: HelperState, now: int)
    modifies s`queues, s`statuses
    ensures forall k :: Settled(QueueOf(old(s.queues), k), StatusOf(old(s.statuses), k), QueueOf(s.queues, k),
                                StatusOf(s.statuses, k), s.job, k, now)
    ensures forall k :: SilentFailed(QueueOf(old(s.queues), k), StatusOf(old(s.statuses), k), QueueOf(s.queues, k),
                                     StatusOf(s.statuses, k), s.job, k, now)
    ensures forall k :: Stepped(QueueOf(old(s.queues), k), QueueOf(s.queues, k), None)
  {
    FailAllSilent(s, now);
    forall k
      ensures SilentFailed(QueueOf(old(s.queues), k), StatusOf(old(s.statuses), k), QueueOf(s.queues, k),
                           StatusOf(s.statuses, k), s.job, k, now)
    {
      SettledMeans(QueueOf(old(s.queues), k), StatusOf(old(s.statuses), k), QueueOf(s.queues, k),
                   StatusOf(s.statuses, k), s.job, k, now);
    }
    forall k
      ensures Stepped(QueueOf(old(s.queues), k), QueueOf(s.queues, k), None)
    {
      SettledIsAStep(QueueOf(old(s.queues), k), StatusOf(old(s.statuses), k), QueueOf(s.queues, k),
                     StatusOf(s.statuses, k), s.job, k, now);
    }
  }

  lemma SettledIsAStep(queue0: seq<Command>, status0: Status, queue: seq<Command>, status: Status, job: Option<Job>,
                       server: string, now: int)
    requires Settled(queue0, status0, queue, status, job, server, now)
    ensures Stepped(queue0, queue, None)
  {
    StayingIsAStep(queue0);
    DroppingUpdatesIsAStep(queue0);
  }

  method FailAllSilent(s: HelperState, now: int)
    modifies s`queues, s`statuses
    ensures forall k :: Settled(QueueOf(old(s.queues), k), StatusOf(old(s.statuses), k), QueueOf(s.queues, k),
                                StatusOf(s.statuses, k), s.job, k, now)
  {
    ghost var queues0, statuses0 := s.queues, s.statuses;
    var todo := s.statuses.Keys;
    while todo != {}
      invariant todo <= statuses0.Keys
      invariant forall k :: k in todo ==>
                              QueueOf(s.queues, k) == QueueOf(queues0, k) &&
                              StatusOf(s.statuses, k) == StatusOf(statuses0, k)
      invariant forall k :: k !in todo ==>
                              Settled(QueueOf(queues0, k), StatusOf(statuses0, k), QueueOf(s.queues, k),
                                      StatusOf(s.statuses, k), s.job, k, now)
    {
      var server :| server in todo;
      var queue, status := QueueOf(s.queues, server), StatusOf(s.statuses, server);
      if Silent(queue, status, s.job, server, now) {
        var kept := DropUpdates(queue);
        s.statuses := s.statuses[server := FailSilent(status, now)];
        s.queues := s.queues[server := kept];
      }
      todo := todo - {server};
    }
  }

  lemma {:induction false} DroppingUpdatesIsAStep(queue: seq<Command>)
    ensures Subsequence(Bodies(WithoutUpdates(queue)), Bodies(queue))
  {
    if queue != [] {
      var n := |queue| - 1;
      var init, last := queue[..n], queue[n];
      DroppingUpdatesIsAStep(init);
      BodiesOfSuffix(queue, n);
      assert Bodies(queue) == Bodies(init) + [Body(last)];
      assert Bodies(WithoutUpdates(init) + [last]) == Bodies(WithoutUpdates(init)) + [Body(last)];
      assert WithoutUpdates(init) + [] == WithoutUpdates(init);
      SubsequenceWithMore(Bodies(WithoutUpdates(init)), Bodies(init), Body(last));
    }
  }

  /** What expiry drops could not have run any more, and afterwards no update is pending. */
  lemma {:induction false} OnlyDeadUpdatesAreDropped(queue: seq<Command>, now: int)
    requires !UpdateQueued(queue, now)
    ensures forall c :: c in queue && c !in WithoutUpdates(queue) ==> now >= c.expiresAt
    ensures forall c :: c in WithoutUpdates(queue) ==> c in queue && !IsUpdate(c.action)
  {
    if queue != [] {
      var init := queue[..|queue| - 1];
      assert queue == init + [queue[|queue| - 1]];
      OnlyDeadUpdatesAreDropped(init, now);
    }
  }

  // ---------- all runs ----------

  ghost predicate Distinct(queue: seq<Command>) {
    forall i, j :: 0 <= i < j < |queue| ==> queue[i].id != queue[j].id
  }

  ghost predicate Before(queue: seq<Command>, a: string, b: string) {
    exists i, j :: 0 <= i < j < |queue| && queue[i].id == a && queue[j].id == b
  }

  /** The new command has an identifier that was not seen before. */
  ghost predicate Fresh(past: seq<seq<Command>>, new': Option<Command>) {
    new'.Some? ==> forall q :: q in past ==> !InQueue(q, new'.value.id)
  }

  /** The contents of one queue over any number of steps, with the commands that were added. */
  ghost predicate Run(run: seq<seq<Command>>, added: seq<Option<Command>>) {
    |run| == |added| + 1 && Distinct(run[0]) &&
    forall k :: 0 <= k < |added| ==> Stepped(run[k], run[k + 1], added[k]) && Fresh(run[..k + 1], added[k])
  }

  /** A step of any of the methods, with a fresh identifier, is a further step of a run. */
  lemma RunGoesOn(run: seq<seq<Command>>, added: seq<Option<Command>>, after: seq<Command>, new': Option<Command>)
    requires Run(run, added) && Stepped(run[|run| - 1], after, new') && Fresh(run, new')
    ensures Run(run + [after], added + [new'])
  {
    var longer, more := run + [after], added + [new'];
    forall k | 0 <= k < |more|
      ensures Stepped(longer[k], longer[k + 1], more[k]) && Fresh(longer[..k + 1], more[k])
    {
      assert longer[..k + 1] == run[..k + 1];
      if k == |added| {
        assert run[..k + 1] == run;
      }
    }
  }

  lemma {:induction false} SubsequenceKeepsOrder(part: seq<Command>, whole: seq<Command>, i: nat, j: nat)
    returns (p: nat, q: nat)
    requires Subsequence(part, whole) && i < j < |part|
    ensures p < q < |whole| && whole[p] == part[i] && whole[q] == part[j]
    decreases |whole|
  {
    assert whole != [];
    var init, n := whole[..|whole| - 1], |part| - 1;
    if Subsequence(part, init) {
      p, q := SubsequenceKeepsOrder(part, init, i, j);
    } else if j < n {
      p, q := SubsequenceKeepsOrder(part[..n], init, i, j);
    } else {
      p := SubsequenceMember(part[..n], init, i);
      q := |whole| - 1;
    }
  }

  lemma {:induction false} SubsequenceMember(part: seq<Command>, whole: seq<Command>, i: nat) returns (p: nat)
    requires Subsequence(part, whole) && i < |part|
    ensures p < |whole| && whole[p] == part[i]
    decreases |whole|
  {
    assert whole != [];
    var init, n := whole[..|whole| - 1], |part| - 1;
    if Subsequence(part, init) {
      p := SubsequenceMember(part, init, i);
    } else if i < n {
      p := SubsequenceMember(part[..n], init, i);
    } else {
      p := |whole| - 1;
    }
  }

  lemma SubsequenceDistinct(part: seq<Command>, whole: seq<Command>)
    requires Subsequence(Bodies(part), Bodies(whole)) && Distinct(whole)
    ensures Distinct(part)
    ensures forall id :: InQueue(part, id) ==> InQueue(whole, id)
  {
    forall i, j | 0 <= i < j < |part| ensures part[i].id != part[j].id {
      var p, q := SubsequenceKeepsOrder(Bodies(part), Bodies(whole), i, j);
    }
    forall id | InQueue(part, id) ensures InQueue(whole, id) {
      var i :| 0 <= i < |part| && part[i].id == id;
      var p := SubsequenceMember(Bodies(part), Bodies(whole), i);
      assert whole[p].id == id;
    }
  }

  lemma SubsequenceBefore(part: seq<Command>, whole: seq<Command>, a: string, b: string)
    requires Subsequence(Bodies(part), Bodies(whole)) && Distinct(whole)
    requires Before(whole, a, b) && InQueue(part, a) && InQueue(part, b)
    ensures Before(part, a, b)
  {
    var i :| 0 <= i < |part| && part[i].id == a;
    var j :| 0 <= j < |part| && part[j].id == b;
    if j < i {
      var p, q := SubsequenceKeepsOrder(Bodies(part), Bodies(whole), j, i);
    }
  }

  lemma MembersOfExtended(init: seq<Command>, last: Command, id: string)
    ensures InQueue(init + [last], id) <==> InQueue(init, id) || last.id == id
  {
    assert last in init + [last];
    if InQueue(init, id) {
      var c :| c in init && c.id == id;
      assert c in init + [last];
    }
  }

  lemma ExtendedDistinct(init: seq<Command>, last: Command)
    requires Distinct(init) && !InQueue(init, last.id)
    ensures Distinct(init + [last])
  {
    assert forall i :: 0 <= i < |init| ==> init[i] in init;
  }

  lemma ExtendedBefore(init: seq<Command>, last: Command, a: string, b: string)
    requires Before(init, a, b)
    ensures Before(init + [last], a, b)
  {
    var i, j :| 0 <= i < j < |init| && init[i].id == a && init[j].id == b;
    assert (init + [last])[i] == init[i] && (init + [last])[j] == init[j];
  }

  /** One step keeps identifiers distinct, the order of commands that stay, and does not bring
      back a command of the past. */
  lemma StepKeepsOrder(past: seq<seq<Command>>, before: seq<Command>, after: seq<Command>, new': Option<Command>,
                       a: string, b: string)
    requires Stepped(before, after, new') && Fresh(past, new') && before in past && Distinct(before)
    ensures Distinct(after)
    ensures InQueue(after, a) && (exists q :: q in past && InQueue(q, a)) ==> InQueue(before, a)
    ensures Before(before, a, b) && InQueue(after, a) && InQueue(after, b) ==> Before(after, a, b)
  {
    if new' == None {
      SubsequenceDistinct(after, before);
      if Before(before, a, b) && InQueue(after, a) && InQueue(after, b) {
        SubsequenceBefore(after, before, a, b);
      }
    } else {
      var init, last := after[..|after| - 1], after[|after| - 1];
      assert after == init + [last];
      SubsequenceDistinct(init, before);
      ExtendedDistinct(init, last);
      MembersOfExtended(init, last, a);
      MembersOfExtended(init, last, b);
      if Before(before, a, b) && InQueue(after, a) && InQueue(after, b) {
        assert InQueue(before, a) && InQueue(before, b);
        SubsequenceBefore(init, before, a, b);
        ExtendedBefore(init, last, a, b);
      }
    }
  }

  lemma {:induction false} RunKeepsDistinct(run: seq<seq<Command>>, added: seq<Option<Command>>, k: nat)
    requires Run(run, added) && k < |run|
    ensures Distinct(run[k])
  {
    if k > 0 {
      RunKeepsDistinct(run, added, k - 1);
      assert run[..k][k - 1] == run[k - 1];
      assert Stepped(run[k - 1], run[k - 1 + 1], added[k - 1]);
      StepKeepsOrder(run[..k], run[k - 1], run[k], added[k - 1], "", "");
    }
  }

  lemma StepOfRun(run: seq<seq<Command>>, added: seq<Option<Command>>, i: nat, k: nat, a: string, b: string)
    requires Run(run, added) && i < k < |run|
    ensures InQueue(run[i], a) && InQueue(run[k], a) ==> InQueue(run[k - 1], a)
    ensures Before(run[k - 1], a, b) && InQueue(run[k], a) && InQueue(run[k], b) ==> Before(run[k], a, b)
  {
    RunKeepsDistinct(run, added, k - 1);
    assert run[..k][k - 1] == run[k - 1] && run[..k][i] == run[i];
    assert Stepped(run[k - 1], run[k - 1 + 1], added[k - 1]);
    StepKeepsOrder(run[..k], run[k - 1], run[k], added[k - 1], a, b);
  }

  lemma BeforeMeansInside(queue: seq<Command>, a: string, b: string)
    requires Before(queue, a, b)
    ensures InQueue(queue, a) && InQueue(queue, b)
    ensures Distinct(queue) ==> queue[0].id != b
  {
  }

  lemma {:induction false} OrderIsKept(run: seq<seq<Command>>, added: seq<Option<Command>>, i: nat, j: nat, a: string,
                                       b: string)
    requires Run(run, added) && i <= j < |run| && Before(run[i], a, b)
    requires InQueue(run[j], a) && InQueue(run[j], b)
    ensures Before(run[j], a, b)
    decreases j
  {
    if i < j {
      BeforeMeansInside(run[i], a, b);
      StepOfRun(run, added, i, j, a, b);
      StepOfRun(run, added, i, j, b, a);
      OrderIsKept(run, added, i, j - 1, a, b);
    }
  }

  /** Commands are handed out in the order in which they were enqueued: once a command is at the
      front, every command that stood before it is gone, for good. */
  lemma {:induction false} NeverOvertaken(run: seq<seq<Command>>, added: seq<Option<Command>>, i: nat, j: nat, k: nat,
                                          a: string, b: string)
    requires Run(run, added) && i <= j <= k < |run| && Before(run[i], a, b)
    requires run[j] != [] && run[j][0].id == b
    ensures !InQueue(run[k], a)
    decreases k
  {
    BeforeMeansInside(run[i], a, b);
    if InQueue(run[k], a) {
      if j < k {
        StepOfRun(run, added, i, k, a, b);
        NeverOvertaken(run, added, i, j, k - 1, a, b);
      } else {
        OrderIsKept(run, added, i, j, a, b);
        RunKeepsDistinct(run, added, j);
        BeforeMeansInside(run[j], a, b);
      }
    }
  }
}
