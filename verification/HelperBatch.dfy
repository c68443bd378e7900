/** The batch upgrade of many servers: rows wait, at most two run at a time, and a row that runs
    for five minutes is given up. */
module HelperBatch {

  import opened Basics
  import opened Management
  import opened ManagementQueue

  const TIMED_OUT := "no answer within five minutes"
  const STOPPED := "stopped"
  const GONE := "offline or removed"
  const REFUSED := "command refused"

  datatype Server = Server(id: string, connected: bool)

  /** The latest version, and for which architectures there is an artifact (with complete
      checksums). */
  datatype Release = Release(version: string, artifacts: map<string, bool>)

  predicate Open(row: Row) {
    Waiting(row) || Running(row)
  }

  predicate AnyOpen(rows: seq<Row>) {
    exists row :: row in rows && Open(row)
  }

  predicate AnyFailed(rows: seq<Row>) {
    exists row :: row in rows && (row.phase == At(Failed) || row.phase == At(RolledBack))
  }

  function Finished(job: Job, now: int): Job {
    if AnyOpen(job.rows) then job
    else job.(phase := if AnyFailed(job.rows) then Unsuccessful else Succeeded, finishedAt := now)
  }

  /** The row waits for its turn, or its upgrade has been dispatched and has not ended. */
  ghost predicate Unfinished(row: Row) {
    row.phase == Queued || (row.phase.At? && row.phase.phase !in {Success, Failed, RolledBack})
  }

  /** A job ends once no row is unfinished, as failed exactly if some row failed or was rolled back. */
  ghost predicate EndsWithItsRows(job: Job, r: Job, now: int) {
    if exists i :: 0 <= i < |job.rows| && Unfinished(job.rows[i]) then r == job
    else
      r == job.(phase := r.phase, finishedAt := now) &&
      r.phase == if exists i :: 0 <= i < |job.rows| && job.rows[i].phase in {At(Failed), At(RolledBack)}
                   then Unsuccessful else Succeeded
  }

  lemma FinishedIs(job: Job, now: int)
    ensures EndsWithItsRows(job, Finished(job, now), now)
  {
    assert forall i :: 0 <= i < |job.rows| ==> job.rows[i] in job.rows;
    if AnyOpen(job.rows) {
      var row :| row in job.rows && Open(row);
      var i :| 0 <= i < |job.rows| && job.rows[i] == row;
      assert Unfinished(job.rows[i]);
    } else if AnyFailed(job.rows) {
      var row :| row in job.rows && (row.phase == At(Failed) || row.phase == At(RolledBack));
      var i :| 0 <= i < |job.rows| && job.rows[i] == row;
    }
    if i :| 0 <= i < |job.rows| && Unfinished(job.rows[i]) {
      assert Open(job.rows[i]);
    }
  }

  method Finish(job: Job, now: int) returns (r: Job)
    ensures r == Finished(job, now)
  {
    var failed := false;
    for i := 0 to |job.rows|
      invariant !AnyOpen(job.rows[..i])
      invariant failed <==> AnyFailed(job.rows[..i])
    {
      var row := job.rows[i];
      assert job.rows[..i + 1] == job.rows[..i] + [row];
      if Open(row) {
        assert row in job.rows;
        return job;
      }
      failed := failed || row.phase == At(Failed) || row.phase == At(RolledBack);
    }
    assert job.rows[..|job.rows|] == job.rows;
    return job.(phase := if failed then Unsuccessful else Succeeded, finishedAt := now);
  }

  // ---------- counting ----------

  function CountRunning(rows: seq<Row>): nat {
    if rows == [] then 0
    else CountRunning(rows[..|rows| - 1]) + if Running(rows[|rows| - 1]) then 1 else 0
  }

  function CountWaiting(rows: seq<Row>): nat {
    if rows == [] then 0
    else CountWaiting(rows[..|rows| - 1]) + if Waiting(rows[|rows| - 1]) then 1 else 0
  }

  lemma OneMoreRow(rows: seq<Row>, row: Row)
    ensures CountRunning(rows + [row]) == CountRunning(rows) + if Running(row) then 1 else 0
  {
    assert (rows + [row])[..|rows|] == rows;
  }

  /** A waiting row still costs a dispatch and a run, a running one a run. */
  function Weight(row: Row): nat {
    if Waiting(row) then 2 else if Running(row) then 1 else 0
  }

  function Load(rows: seq<Row>): nat {
    if rows == [] then 0
    else Load(rows[..|rows| - 1]) + Weight(rows[|rows| - 1])
  }

  lemma {:induction false} RunningCounts(rows: seq<Row>)
    ensures CountRunning(rows) > 0 <==> exists i :: 0 <= i < |rows| && Running(rows[i])
  {
    if rows != [] {
      var init := rows[..|rows| - 1];
      RunningCounts(init);
      assert forall i :: 0 <= i < |init| ==> init[i] == rows[i];
    }
  }

  lemma {:induction false} RunningAre(rows: seq<Row>)
    ensures CountRunning(rows) == |set i: nat | i < |rows| && Running(rows[i])|
  {
    var all := set i: nat | i < |rows| && Running(rows[i]);
    if rows != [] {
      var n := |rows| - 1;
      RunningAre(rows[..n]);
      var rest := set i: nat | i < |rows[..n]| && Running(rows[..n][i]);
      assert all == if Running(rows[n]) then rest + {n as nat} else rest;
    }
  }

  lemma {:induction false} WaitingCounts(rows: seq<Row>)
    ensures CountWaiting(rows) > 0 <==> exists i :: 0 <= i < |rows| && Waiting(rows[i])
  {
    if rows != [] {
      var init := rows[..|rows| - 1];
      WaitingCounts(init);
      assert forall i :: 0 <= i < |init| ==> init[i] == rows[i];
    }
  }

  lemma {:induction false} CountAfterChange(rows: seq<Row>, i: nat, row: Row)
    requires i < |rows|
    ensures CountRunning(rows[i := row]) == CountRunning(rows) - (if Running(rows[i]) then 1 else 0) +
            if Running(row) then 1 else 0
    decreases |rows|
  {
    var n := |rows| - 1;
    if i < n {
      CountAfterChange(rows[..n], i, row);
      assert rows[i := row][..n] == rows[..n][i := row];
    } else {
      assert rows[i := row][..n] == rows[..n];
    }
  }

  // ---------- starting ----------

  predicate FirstUpgrade(version: string) {
    var v := if |version| > 0 && version[0] == 'v' then version[1..] else version;
    v == "" || v == "0.1" || "0.1." <= v
  }

  predicate Reporting(connected: bool, status: Status, now: int) {
    connected && status.reportedAt.Some? && now - status.reportedAt.value <= STALE_TIMEOUT
  }

  /** Why a server is left out of a batch, in the order of the checks; empty if it is not. */
  function SkipReason(s: HelperState, server: Server, release: Release, now: int): string
    reads s
  {
    var status := StatusOf(s.statuses, server.id);
    if UpgradeInProgress(QueueOf(s.queues, server.id), status.update, now) || Busy(s.job, server.id)
      then "upgrade in progress"
    else if !Reporting(server.connected, status, now) then "offline"
    else if !status.helperInstalled || server.id !in s.identities || s.identities[server.id].tokenHash == ""
      then "no helper"
    else if release.version == "" then "no release"
    else if status.helperVersion == release.version then "up to date"
    else if FirstUpgrade(status.helperVersion) && "helper.update" !in status.capabilities then "first upgrade"
    else if status.architecture !in release.artifacts then "no artifact"
    else if !release.artifacts[status.architecture] then "artifact incomplete"
    else ""
  }

  /** What a server has to be for an upgrade: idle, connected and heard of within 15 seconds, with a
      helper of its own that is not up to date and can update itself, and a complete artifact. */
  ghost predicate Eligible(s: HelperState, server: Server, release: Release, now: int)
    reads s
  {
    var status := StatusOf(s.statuses, server.id);
    && !UpgradeInProgress(QueueOf(s.queues, server.id), status.update, now) && !Busy(s.job, server.id)
    && server.connected && status.reportedAt.Some? && now <= status.reportedAt.value + 15
    && status.helperInstalled && server.id in s.identities && s.identities[server.id].tokenHash != ""
    && release.version != "" && status.helperVersion != release.version
    && (FirstUpgrade(status.helperVersion) ==> "helper.update" in status.capabilities)
    && status.architecture in release.artifacts && release.artifacts[status.architecture]
  }

  lemma NoReasonMeansEligible(s: HelperState, server: Server, release: Release, now: int)
    ensures SkipReason(s, server, release, now) == "" <==> Eligible(s, server, release, now)
  {
  }

  /** Versions that predate self-updating: none given, 0.1 and 0.1.x, with or without a leading v. */
  lemma FirstUpgrades(version: string)
    ensures FirstUpgrade("v" + version) <==> version in {"", "0.1"} || "0.1." <= version
    ensures !("v" <= version) ==> (FirstUpgrade(version) <==> version in {"", "0.1"} || "0.1." <= version)
  {
    assert ("v" + version)[1..] == version;
    if version != "" && version[0] == 'v' {
      assert version[..1] == "v";
    }
  }

  /** The row of a server at the start of a batch. */
  function FirstRow(s: HelperState, server: Server, release: Release, selected: set<string>, now: int): Row
    reads s
  {
    var reason := SkipReason(s, server, release, now);
    var row := Row(server.id, Queued, reason, "", 0, 0, release.version);
    if reason != "" then row.(phase := Skipped)
    else if server.id !in selected then row.(phase := Skipped, reason := "not selected")
    else row
  }

  predicate CanStart(s: HelperState, servers: seq<Server>, release: Release, selected: set<string>, now: int)
    reads s
  {
    !(s.job.Some? && s.job.value.phase == Active) &&
    exists server :: server in servers && server.id in selected && SkipReason(s, server, release, now) == ""
  }

  /** A job that is over has no open rows and a job that is not has some; at most two run. */
  ghost predicate Healthy(job: Option<Job>) {
    job.Some? ==>
      (job.value.phase == Active <==> AnyOpen(job.value.rows)) && CountRunning(job.value.rows) <= 2
  }

  lemma FirstRowDoesNotRun(s: HelperState, server: Server, release: Release, selected: set<string>, now: int)
    ensures !Running(FirstRow(s, server, release, selected, now))
  {
  }

  ghost predicate RowsOf(s: HelperState, servers: seq<Server>, release: Release, selected: set<string>, now: int,
                         rows: seq<Row>)
    reads s
  {
    |rows| == |servers| && forall i :: 0 <= i < |servers| ==> rows[i] == FirstRow(s, servers[i], release, selected, now)
  }

  lemma RowsOfMore(s: HelperState, servers: seq<Server>, release: Release, selected: set<string>, now: int,
                   rows: seq<Row>, i: nat, row: Row)
    requires i < |servers| && RowsOf(s, servers[..i], release, selected, now, rows)
    requires row == FirstRow(s, servers[i], release, selected, now)
    ensures RowsOf(s, servers[..i + 1], release, selected, now, rows + [row])
  {
    forall k | 0 <= k <= i ensures (rows + [row])[k] == FirstRow(s, servers[..i + 1][k], release, selected, now) {
      if k < i {
        assert servers[..i][k] == servers[k];
      }
    }
  }

  method FirstRows(s: HelperState, servers: seq<Server>, release: Release, selected: set<string>, now: int)
    returns (rows: seq<Row>, count: nat)
    ensures RowsOf(s, servers, release, selected, now, rows)
    ensures CountRunning(rows) == 0 && count == CountWaiting(rows)
  {
    rows, count := [], 0;
    for i := 0 to |servers|
      invariant RowsOf(s, servers[..i], release, selected, now, rows)
      invariant CountRunning(rows) == 0 && count == CountWaiting(rows)
    {
      var row := FirstRow(s, servers[i], release, selected, now);
      FirstRowDoesNotRun(s, servers[i], release, selected, now);
      RowsOfMore(s, servers, release, selected, now, rows, i, row);
      assert (rows + [row])[..|rows|] == rows;
      rows := rows + [row];
      if row.phase == Queued {
        count := count + 1;
      }
    }
    assert servers[..|servers|] == servers;
  }

  method Start(s: HelperState, servers: seq<Server>, release: Release, selected: set<string>, now: int,
               id: Option<string>, saveOk: bool)
    returns (r: Option<Job>)
    requires Healthy(s.job)
    modifies s`job
    ensures Healthy(s.job)
    ensures r.Some? <==> old(CanStart(s, servers, release, selected, now)) && id.Some? && saveOk
    ensures r.None? ==> s.job == old(s.job)
    ensures r.Some? ==> s.job == r && r.value.phase == Active && r.value.id == id.value &&
                        old(RowsOf(s, servers, release, selected, now, r.value.rows))
    ensures r.Some? <==> !(old(s.job).Some? && old(s.job).value.phase == Active) && id.Some? && saveOk &&
                         exists k :: 0 <= k < |servers| && servers[k].id in selected &&
                                     old(Eligible(s, servers[k], release, now))
    ensures r.Some? ==> |r.value.rows| == |servers| && forall k :: 0 <= k < |servers| ==>
              var waits := servers[k].id in selected && old(Eligible(s, servers[k], release, now));
              var reason := r.value.rows[k].reason;
              r.value.rows[k] ==
              Row(servers[k].id, if waits then Queued else Skipped, reason, "", 0, 0, release.version) &&
              (waits <==> reason == "") &&
              (servers[k].id !in selected && old(Eligible(s, servers[k], release, now)) ==> reason == "not selected")
  {
    forall k | 0 <= k < |servers|
      ensures SkipReason(s, servers[k], release, now) == "" <==> Eligible(s, servers[k], release, now)
    {
      NoReasonMeansEligible(s, servers[k], release, now);
    }
    if s.job.Some? && s.job.value.phase == Active {
      return None;
    }
    var rows, count := FirstRows(s, servers, release, selected, now);
    WaitingCounts(rows);
    assert count > 0 <==> CanStart(s, servers, release, selected, now) by {
      assert forall i :: 0 <= i < |servers| ==> servers[i] in servers;
      if CanStart(s, servers, release, selected, now) {
        var server :| server in servers && server.id in selected && SkipReason(s, server, release, now) == "";
        var i :| 0 <= i < |servers| && servers[i] == server;
        assert Waiting(rows[i]);
      }
    }
    if count == 0 || id.None? {
      return None;
    }
    var previous := s.job;
    var job := Job(id.value, Active, now, now, 0, false, rows);
    assert AnyOpen(rows) by {
      var i :| 0 <= i < |rows| && Waiting(rows[i]);
      assert rows[i] in rows;
    }
    s.job := Some(job);
    if !saveOk {
      s.job := previous;
      return None;
    }
    return Some(job);
  }

  // ---------- stopping ----------

  function Cancel(row: Row, now: int): Row {
    if Waiting(row) then row.(phase := Cancelled, reason := STOPPED, finishedAt := now) else row
  }

  method CancelWaiting(rows: seq<Row>, now: int) returns (r: seq<Row>)
    ensures |r| == |rows| && forall i :: 0 <= i < |rows| ==> r[i] == Cancel(rows[i], now)
    ensures CountRunning(r) == CountRunning(rows)
  {
    r := rows;
    for i := 0 to |rows|
      invariant |r| == |rows|
      invariant forall k :: 0 <= k < i ==> r[k] == Cancel(rows[k], now)
      invariant forall k :: i <= k < |rows| ==> r[k] == rows[k]
      invariant CountRunning(r) == CountRunning(rows)
    {
      CountAfterChange(r, i, Cancel(r[i], now));
      r := r[i := Cancel(r[i], now)];
    }
  }

  method Stop(s: HelperState, id: string, now: int, saveOk: bool) returns (ok: bool)
    requires Healthy(s.job)
    modifies s`job
    ensures Healthy(s.job)
    ensures ok <==> old(s.job).Some? && old(s.job).value.id == id && old(s.job).value.phase == Active && saveOk
    ensures !ok ==> s.job == old(s.job)
    ensures ok ==> s.job.Some? && s.job.value.stopped && |s.job.value.rows| == |old(s.job).value.rows| &&
                   forall i :: 0 <= i < |s.job.value.rows| ==>
                                 s.job.value.rows[i] ==
                                 if old(s.job).value.rows[i].phase != Queued then old(s.job).value.rows[i]
                                 else old(s.job).value.rows[i].(phase := Cancelled, reason := STOPPED,
                                                                finishedAt := now)
    ensures ok ==> (s.job.value.phase == Active <==> CountRunning(s.job.value.rows) > 0)
  {
    if s.job.None? || s.job.value.id != id || s.job.value.phase != Active {
      return false;
    }
    var previous := s.job;
    var rows := CancelWaiting(s.job.value.rows, now);
    RunningCounts(rows);
    assert AnyOpen(rows) <==> CountRunning(rows) > 0 by {
      assert forall i :: 0 <= i < |rows| ==> !Waiting(rows[i]) && rows[i] in rows;
    }
    var job := Finish(s.job.value.(stopped := true, updatedAt := now, rows := rows), now);
    s.job := Some(job);
    if !saveOk {
      s.job := previous;
      return false;
    }
    return true;
  }

  // ---------- one tick: the running rows ----------

  predicate Reports(row: Row, update: Option<Progress>) {
    update.Some? && update.value.component == HelperPart && update.value.startedAt == row.startedAt
  }

  /** A running row takes over the phase that its own upgrade reports. */
  function Followed(row: Row, update: Option<Progress>): Row {
    if !Reports(row, update) then row
    else
      var r := row.(phase := At(update.value.phase));
      if Terminal(update.value.phase) then r.(reason := update.value.message, finishedAt := update.value.updatedAt)
      else r
  }

  predicate Overdue(row: Row, now: int) {
    now - row.startedAt >= BATCH_TIMEOUT
  }

  predicate GivenUp(row: Row, update: Option<Progress>, now: int) {
    Running(Followed(row, update)) && Overdue(row, now)
  }

  /** What becomes of a running row. */
  function Observed(row: Row, update: Option<Progress>, now: int): Row {
    if GivenUp(row, update, now)
      then Followed(row, update).(phase := At(Failed), reason := TIMED_OUT, finishedAt := now)
    else Followed(row, update)
  }

  /** What becomes of a running row: its own upgrade's report ends it or gives it its phase, and one
      that still runs after five minutes is given up. */
  ghost predicate FollowsReport(row: Row, r: Row, update: Option<Progress>, now: int) {
    var own := update.Some? && update.value.component == HelperPart && update.value.startedAt == row.startedAt;
    if own && update.value.phase in {Success, Failed, RolledBack} then
      r == row.(phase := At(update.value.phase), reason := update.value.message, finishedAt := update.value.updatedAt)
    else if now >= row.startedAt + 300 then r == row.(phase := At(Failed), reason := TIMED_OUT, finishedAt := now)
    else r == if own then row.(phase := At(update.value.phase)) else row
  }

  lemma ObservedIs(row: Row, update: Option<Progress>, now: int)
    requires Running(row)
    ensures FollowsReport(row, Observed(row, update, now), update, now)
    ensures Terminal(Observed(row, update, now).phase.phase) <==>
            now >= row.startedAt + 300 ||
            (update.Some? && update.value.component == HelperPart && update.value.startedAt == row.startedAt &&
             update.value.phase in {Success, Failed, RolledBack})
  {
  }

  function StatusGivenUp(status: Status, row: Row, now: int): Status {
    if GivenUp(row, status.update, now) && status.update.Some? && status.update.value.startedAt == row.startedAt then
      status.(update := Some(status.update.value.(phase := Failed, message := TIMED_OUT, updatedAt := now)))
    else status
  }

  function WithoutCommand(queue: seq<Command>, id: string): seq<Command> {
    if queue == [] then []
    else
      var last := queue[|queue| - 1];
      WithoutCommand(queue[..|queue| - 1], id) + if last.id == id then [] else [last]
  }

  method DropCommand(queue: seq<Command>, id: string) returns (kept: seq<Command>)
    ensures kept == WithoutCommand(queue, id)
  {
    kept := [];
    for i := 0 to |queue|
      invariant kept == WithoutCommand(queue[..i], id)
    {
      assert queue[..i + 1][..i] == queue[..i];
      if queue[i].id != id {
        kept := kept + [queue[i]];
      }
    }
    assert queue[..|queue|] == queue;
  }

  lemma {:induction false} DroppingACommandIsAStep(queue: seq<Command>, id: string)
    ensures Subsequence(Bodies(WithoutCommand(queue, id)), Bodies(queue))
  {
    if queue != [] {
      var n := |queue| - 1;
      var init, last := queue[..n], queue[n];
      DroppingACommandIsAStep(init, id);
      BodiesOfSuffix(queue, n);
      assert Bodies(queue) == Bodies(init) + [Body(last)];
      assert Bodies(WithoutCommand(init, id) + [last]) == Bodies(WithoutCommand(init, id)) + [Body(last)];
      assert WithoutCommand(init, id) + [] == WithoutCommand(init, id);
      SubsequenceWithMore(Bodies(WithoutCommand(init, id)), Bodies(init), Body(last));
    }
  }

  lemma {:induction false} OnlyThatCommandIsDropped(queue: seq<Command>, id: string, c: Command)
    ensures c in WithoutCommand(queue, id) <==> c in queue && c.id != id
  {
    if queue != [] {
      var init := queue[..|queue| - 1];
      assert queue == init + [queue[|queue| - 1]];
      OnlyThatCommandIsDropped(init, id, c);
    }
  }

  lemma {:induction false} WithoutCommandCounts(queue: seq<Command>, id: string, c: Command)
    ensures multiset(WithoutCommand(queue, id))[c] == if c.id == id then 0 else multiset(queue)[c]
  {
    if queue != [] {
      WithoutCommandCounts(queue[..|queue| - 1], id, c);
      assert queue == queue[..|queue| - 1] + [queue[|queue| - 1]];
    }
  }

  /** What the end of a row leaves: its queue without its command, and, if it was given up while its
      upgrade was still on record, that upgrade as failed. */
  ghost predicate EndOfRow(row: Row, now: int, queue0: seq<Command>, status0: Status, queue: seq<Command>,
                           status: Status) {
    var update := status0.update;
    (forall c :: multiset(queue)[c] == if c.id == row.commandId then 0 else multiset(queue0)[c]) &&
    status == if update.Some? && update.value.startedAt == row.startedAt &&
                 !(update.value.component == HelperPart && update.value.phase in {Success, Failed, RolledBack})
                then status0.(update := Some(update.value.(phase := Failed, message := TIMED_OUT, updatedAt := now)))
              else status0
  }

  lemma EndOfRowIs(row: Row, now: int, queue: seq<Command>, status: Status)
    requires Running(row) && !Running(Observed(row, status.update, now))
    ensures EndOfRow(row, now, queue, status, WithoutCommand(queue, row.commandId), StatusGivenUp(status, row, now))
  {
    forall c
      ensures multiset(WithoutCommand(queue, row.commandId))[c] ==
              if c.id == row.commandId then 0 else multiset(queue)[c]
    {
      WithoutCommandCounts(queue, row.commandId, c);
    }
  }

  method ObserveRow(s: HelperState, row: Row, now: int) returns (r: Row)
    requires Running(row)
    modifies s`queues, s`statuses
    ensures r == Observed(row, StatusOf(old(s.statuses), row.server).update, now)
    ensures FollowsReport(row, r, StatusOf(old(s.statuses), row.server).update, now)
    ensures !Running(r) ==> EndOfRow(row, now, QueueOf(old(s.queues), row.server),
                                     StatusOf(old(s.statuses), row.server),
                                     QueueOf(s.queues, row.server), StatusOf(s.statuses, row.server))
    ensures s.statuses == (if Running(r) then old(s.statuses)
                           else old(s.statuses)[row.server :=
                                                  StatusGivenUp(StatusOf(old(s.statuses), row.server), row, now)])
    ensures s.queues == (if Running(r) then old(s.queues)
                         else old(s.queues)[row.server :=
                                              WithoutCommand(QueueOf(old(s.queues), row.server), row.commandId)])
  {
    var status := StatusOf(s.statuses, row.server);
    ObservedIs(row, status.update, now);
    r := Followed(row, status.update);
    if Running(r) && Overdue(row, now) {
      r := r.(phase := At(Failed), reason := TIMED_OUT, finishedAt := now);
    }
    if !Running(r) {
      EndOfRowIs(row, now, QueueOf(s.queues, row.server), status);
      s.statuses := s.statuses[row.server := StatusGivenUp(status, row, now)];
      var kept := DropCommand(QueueOf(s.queues, row.server), row.commandId);
      s.queues := s.queues[row.server := kept];
    }
  }

  ghost predicate OneRowPerServer(rows: seq<Row>) {
    forall i, j :: 0 <= i < j < |rows| ==> rows[i].server != rows[j].server
  }

  /** A running row is as some report of its upgrade makes it; others are unchanged. */
  ghost predicate ObservedStep(before: Row, after: Row, now: int) {
    if Running(before) then exists update :: after == Observed(before, update, now) else after == before
  }

  ghost predicate Gone(queues: map<string, seq<Command>>, row: Row) {
    !InQueue(QueueOf(queues, row.server), row.commandId)
  }

  ghost predicate Trimmed(before: map<string, seq<Command>>, after: map<string, seq<Command>>) {
    forall k :: Subsequence(Bodies(QueueOf(after, k)), Bodies(QueueOf(before, k)))
  }

  lemma TrimmedFurther(before: map<string, seq<Command>>, middle: map<string, seq<Command>>, server: string, id: string)
    requires Trimmed(before, middle)
    ensures var after := middle[server := WithoutCommand(QueueOf(middle, server), id)];
            Trimmed(before, after) &&
            forall row :: Gone(middle, row) || (row.server == server && row.commandId == id) ==> Gone(after, row)
  {
    var queue := QueueOf(middle, server);
    var after := middle[server := WithoutCommand(queue, id)];
    DroppingACommandIsAStep(queue, id);
    forall k ensures Subsequence(Bodies(QueueOf(after, k)), Bodies(QueueOf(before, k))) {
      if k == server {
        SubsequenceTransitive(Bodies(QueueOf(after, k)), Bodies(queue), Bodies(QueueOf(before, k)));
      }
    }
    forall c ensures c in WithoutCommand(queue, id) <==> c in queue && c.id != id {
      OnlyThatCommandIsDropped(queue, id, c);
    }
  }

  /** Rows handled so far, and that the commands of those that ended are out of their queues. */
  ghost predicate Handled(rows: seq<Row>, done: seq<Row>, now: int, queues: map<string, seq<Command>>) {
    |done| <= |rows| &&
    forall k :: 0 <= k < |done| ==>
      ObservedStep(rows[k], done[k], now) && (Running(rows[k]) && !Running(done[k]) ==> Gone(queues, rows[k]))
  }

  /** Queues that lost no more than they had lost. */
  ghost predicate StillGone(before: map<string, seq<Command>>, after: map<string, seq<Command>>) {
    forall row :: Gone(before, row) ==> Gone(after, row)
  }

  lemma HandledMore(rows: seq<Row>, done: seq<Row>, row: Row, now: int, before: map<string, seq<Command>>,
                    after: map<string, seq<Command>>)
    requires Handled(rows, done, now, before) && |done| < |rows| && StillGone(before, after)
    requires ObservedStep(rows[|done|], row, now)
    requires Running(rows[|done|]) && !Running(row) ==> Gone(after, rows[|done|])
    ensures Handled(rows, done + [row], now, after)
  {
    forall k | 0 <= k <= |done|
      ensures ObservedStep(rows[k], (done + [row])[k], now)
      ensures Running(rows[k]) && !Running((done + [row])[k]) ==> Gone(after, rows[k])
    {
      if k < |done| {
        assert (done + [row])[k] == done[k];
      }
    }
  }

  method ObserveOne(s: HelperState, row: Row, now: int, ghost queues0: map<string, seq<Command>>) returns (r: Row)
    requires Trimmed(queues0, s.queues)
    modifies s`queues, s`statuses
    ensures ObservedStep(row, r, now)
    ensures r == if Running(row) then Observed(row, StatusOf(old(s.statuses), row.server).update, now) else row
    ensures Trimmed(queues0, s.queues) && StillGone(old(s.queues), s.queues)
    ensures Running(row) && !Running(r) ==> Gone(s.queues, row)
    ensures r == row ==> s.queues == old(s.queues) && s.statuses == old(s.statuses)
    ensures forall k :: k != row.server ==> StatusOf(s.statuses, k) == StatusOf(old(s.statuses), k)
    ensures forall k :: k != row.server ==> QueueOf(s.queues, k) == QueueOf(old(s.queues), k)
    ensures !Running(row) ==> s.queues == old(s.queues) && s.statuses == old(s.statuses)
  {
    if !Running(row) {
      return row;
    }
    r := ObserveRow(s, row, now);
    TrimmedFurther(queues0, old(s.queues), row.server, row.commandId);
  }

  /** The rows are exactly as the reports known at the beginning make them. */
  ghost predicate AsReported(rows: seq<Row>, done: seq<Row>, now: int, statuses: map<string, Status>) {
    |done| <= |rows| &&
    forall k :: 0 <= k < |done| ==>
      done[k] == if Running(rows[k]) then Observed(rows[k], StatusOf(statuses, rows[k].server).update, now) else rows[k]
  }

  /** The statuses of the servers of the rows from i on are as they were. */
  ghost predicate Ahead(rows: seq<Row>, i: nat, before: map<string, Status>, after: map<string, Status>) {
    forall k :: i <= k < |rows| ==> StatusOf(after, rows[k].server) == StatusOf(before, rows[k].server)
  }

  /** Queue and status of the servers whose rows wait are as they were. */
  ghost predicate WaitersUntouched(rows: seq<Row>, queues: map<string, seq<Command>>,
                                   queues': map<string, seq<Command>>, statuses: map<string, Status>,
                                   statuses': map<string, Status>) {
    forall k :: 0 <= k < |rows| && Waiting(rows[k]) ==>
      QueueOf(queues', rows[k].server) == QueueOf(queues, rows[k].server) &&
      StatusOf(statuses', rows[k].server) == StatusOf(statuses, rows[k].server)
  }

  ghost predicate ReportedSoFar(rows: seq<Row>, done: seq<Row>, now: int, before: map<string, Status>,
                                after: map<string, Status>) {
    OneRowPerServer(rows) ==> Ahead(rows, |done|, before, after) && AsReported(rows, done, now, before)
  }

  lemma ReportedMore(rows: seq<Row>, done: seq<Row>, row: Row, now: int, before: map<string, Status>,
                     middle: map<string, Status>, after: map<string, Status>)
    requires ReportedSoFar(rows, done, now, before, middle) && |done| < |rows|
    requires row == if Running(rows[|done|])
                      then Observed(rows[|done|], StatusOf(middle, rows[|done|].server).update, now) else rows[|done|]
    requires forall k :: k != rows[|done|].server ==> StatusOf(after, k) == StatusOf(middle, k)
    ensures ReportedSoFar(rows, done + [row], now, before, after)
  {
    if OneRowPerServer(rows) {
      forall k | |done| < k < |rows| ensures StatusOf(after, rows[k].server) == StatusOf(before, rows[k].server) {
        assert rows[k].server != rows[|done|].server;
      }
    }
  }

  lemma StillUntouched(rows: seq<Row>, i: nat, queues0: map<string, seq<Command>>, queues1: map<string, seq<Command>>,
                       queues2: map<string, seq<Command>>, statuses0: map<string, Status>,
                       statuses1: map<string, Status>, statuses2: map<string, Status>)
    requires OneRowPerServer(rows) && i < |rows|
    requires WaitersUntouched(rows, queues0, queues1, statuses0, statuses1)
    requires forall k :: k != rows[i].server ==> QueueOf(queues2, k) == QueueOf(queues1, k)
    requires forall k :: k != rows[i].server ==> StatusOf(statuses2, k) == StatusOf(statuses1, k)
    requires !Running(rows[i]) ==> queues2 == queues1 && statuses2 == statuses1
    ensures WaitersUntouched(rows, queues0, queues2, statuses0, statuses2)
  {
    forall k | 0 <= k < |rows| && Waiting(rows[k])
      ensures QueueOf(queues2, rows[k].server) == QueueOf(queues0, rows[k].server)
      ensures StatusOf(statuses2, rows[k].server) == StatusOf(statuses0, rows[k].server)
    {
      if k < i {
        assert rows[k].server != rows[i].server;
      } else if i < k {
        assert rows[i].server != rows[k].server;
      }
    }
  }

  /** Every running row is brought up to date; the commands of rows that end leave their queues. */
  method ObserveAll(s: HelperState, rows: seq<Row>, now: int) returns (after: seq<Row>, active: nat)
    modifies s`queues, s`statuses
    ensures |after| == |rows| && Handled(rows, after, now, s.queues)
    ensures active == CountRunning(after)
    ensures Trimmed(old(s.queues), s.queues)
    ensures after == rows ==> s.queues == old(s.queues) && s.statuses == old(s.statuses)
    ensures OneRowPerServer(rows) ==> AsReported(rows, after, now, old(s.statuses))
    ensures OneRowPerServer(rows) ==>
              WaitersUntouched(rows, old(s.queues), s.queues, old(s.statuses), s.statuses)
  {
    after, active := [], 0;
    ghost var queues0, statuses0 := s.queues, s.statuses;
    forall k ensures Subsequence(Bodies(QueueOf(queues0, k)), Bodies(QueueOf(queues0, k))) {
      WholeIsSubsequence(Bodies(QueueOf(queues0, k)));
    }
    for i := 0 to |rows|
      invariant |after| == i && Handled(rows, after, now, s.queues)
      invariant active == CountRunning(after)
      invariant Trimmed(queues0, s.queues)
      invariant after == rows[..i] ==> s.queues == queues0 && s.statuses == statuses0
      invariant ReportedSoFar(rows, after, now, statuses0, s.statuses)
      invariant OneRowPerServer(rows) ==> WaitersUntouched(rows, queues0, s.queues, statuses0, s.statuses)
    {
      ghost var queues1, statuses1 := s.queues, s.statuses;
      var row := ObserveOne(s, rows[i], now, queues0);
      HandledMore(rows, after, row, now, queues1, s.queues);
      ReportedMore(rows, after, row, now, statuses0, statuses1, s.statuses);
      if OneRowPerServer(rows) {
        StillUntouched(rows, i, queues0, queues1, s.queues, statuses0, statuses1, s.statuses);
      }
      assert (after + [row])[..i] == after && rows[..i + 1][..i] == rows[..i];
      if Running(row) {
        active := active + 1;
      }
      after := after + [row];
    }
    assert rows[..|rows|] == rows;
  }

  // ---------- one tick: the waiting rows ----------

  /** The servers by identifier; of several with the same one the last counts. */
  function DirectoryOf(servers: seq<Server>): (known: map<string, Server>)
    ensures forall id :: id in known <==> exists server :: server in servers && server.id == id
    ensures forall id :: id in known ==> known[id] in servers && known[id].id == id
  {
    if servers == [] then map[]
    else
      var last := servers[|servers| - 1];
      assert servers == servers[..|servers| - 1] + [last];
      DirectoryOf(servers[..|servers| - 1])[last.id := last]
  }

  method Directory(servers: seq<Server>) returns (known: map<string, Server>)
    ensures known == DirectoryOf(servers)
  {
    known := map[];
    for i := 0 to |servers|
      invariant known == DirectoryOf(servers[..i])
    {
      assert servers[..i + 1][..i] == servers[..i];
      known := known[servers[i].id := servers[i]];
    }
    assert servers[..|servers|] == servers;
  }

  predicate Online(known: map<string, Server>, server: string, status: Status, now: int) {
    server in known && Reporting(known[server].connected, status, now)
  }

  /** The identifiers drawn for the commands of the rows, where that succeeds. */
  type Draw = nat -> Option<string>

  ghost predicate Drawn(draw: Draw, id: string) {
    exists i: nat :: draw(i) == Some(id)
  }

  /** A queue is as before but for at most one upgrade command at the end, with a drawn identifier. */
  ghost predicate Grown(before: seq<Command>, after: seq<Command>, draw: Draw, now: int) {
    after == before ||
    (|after| == |before| + 1 && after[..|before|] == before && after[|before|].action == "helper.update" &&
     after[|before|].expiresAt == now + BATCH_TIMEOUT && Drawn(draw, after[|before|].id))
  }

  ghost predicate AllGrown(before: map<string, seq<Command>>, after: map<string, seq<Command>>, draw: Draw, now: int) {
    forall k :: Grown(QueueOf(before, k), QueueOf(after, k), draw, now)
  }

  lemma GrownHasAnUpdate(before: seq<Command>, after: seq<Command>, draw: Draw, now: int)
    requires Grown(before, after, draw, now) && after != before
    ensures UpdateQueued(after, now)
  {
    assert after[|before|] in after;
  }

  lemma GrowsOnce(before: map<string, seq<Command>>, middle: map<string, seq<Command>>, server: string, c: Command,
                  draw: Draw, now: int)
    requires AllGrown(before, middle, draw, now) && !UpdateQueued(QueueOf(middle, server), now)
    requires c.action == "helper.update" && c.expiresAt == now + BATCH_TIMEOUT && Drawn(draw, c.id)
    ensures AllGrown(before, middle[server := QueueOf(middle, server) + [c]], draw, now)
  {
    if QueueOf(middle, server) != QueueOf(before, server) {
      GrownHasAnUpdate(QueueOf(before, server), QueueOf(middle, server), draw, now);
    }
  }

  /** What a tick may make of a row that was not running. */
  ghost predicate DispatchStep(before: Row, after: Row, now: int) {
    after == before ||
    (Waiting(before) && after.server == before.server && after.version == before.version && after.phase.At? &&
     (after.phase.phase in {Success, Failed} || (after.phase.phase == Dispatching && after.startedAt == now)))
  }

  /** What a turn depends on: what is known of the servers, the time and the identifiers drawn. */
  datatype Scene = Scene(identities: map<string, Identity>, queues: map<string, seq<Command>>,
                         statuses: map<string, Status>, job: Option<Job>, known: map<string, Server>, now: int,
                         draw: Draw)

  ghost predicate IsOnline(c: Scene, row: Row) {
    var status := StatusOf(c.statuses, row.server);
    row.server in c.known && c.known[row.server].connected && status.reportedAt.Some? &&
    c.now <= status.reportedAt.value + 15
  }

  /** An upgrade can be queued for the row's server: it has a credential and room in its queue, and no
      update of it is under way. */
  ghost predicate Able(c: Scene, row: Row) {
    var queue := QueueOf(c.queues, row.server);
    row.server in c.identities && c.identities[row.server].tokenHash != "" && |queue| < 16 &&
    NoUpdateUnderWay(queue, StatusOf(c.statuses, row.server).update, c.job, row.server, c.now, true)
  }

  /** What a waiting row's turn makes of it and of its server's queue: gone, already there, dispatched
      with the drawn identifier, or, exactly if it is not able or nothing was drawn, refused. */
  ghost predicate Outcome(c: Scene, row: Row, r: Row, id: Option<string>, queue: seq<Command>) {
    var old' := QueueOf(c.queues, row.server);
    if !IsOnline(c, row) then
      r == row.(phase := At(Failed), reason := GONE, finishedAt := c.now) && queue == old'
    else if StatusOf(c.statuses, row.server).helperVersion == row.version then
      r == row.(phase := At(Success), reason := "", finishedAt := c.now) && queue == old'
    else if Able(c, row) && id.Some? then
      r == row.(phase := At(Dispatching), startedAt := c.now, commandId := id.value) &&
      queue == old' + [Command(id.value, "helper.update", Artifact(row.version, true), c.now, c.now + 300,
                               c.identities[row.server].tokenHash)]
    else
      r == row.(phase := At(Failed), reason := REFUSED, finishedAt := c.now) && queue == old'
  }

  ghost function SceneOf(s: HelperState, known: map<string, Server>, now: int, draw: Draw): Scene
    reads s
  {
    Scene(s.identities, s.queues, s.statuses, s.job, known, now, draw)
  }

  /** Gives a waiting row its turn. */
  method DispatchRow(s: HelperState, row: Row, known: map<string, Server>, now: int, draw: Draw, i: nat,
                     ghost queues0: map<string, seq<Command>>) returns (r: Row)
    requires Waiting(row) && AllGrown(queues0, s.queues, draw, now)
    modifies s`queues, s`statuses
    ensures Outcome(old(SceneOf(s, known, now, draw)), row, r, draw(i), QueueOf(s.queues, row.server))
    ensures AllGrown(queues0, s.queues, draw, now)
    ensures !Running(r) ==> s.queues == old(s.queues) && s.statuses == old(s.statuses)
    ensures forall k :: k != row.server ==> QueueOf(s.queues, k) == QueueOf(old(s.queues), k)
    ensures forall k :: k != row.server ==> StatusOf(s.statuses, k) == StatusOf(old(s.statuses), k)
  {
    var status := StatusOf(s.statuses, row.server);
    if !Online(known, row.server, status, now) {
      return row.(phase := At(Failed), reason := GONE, finishedAt := now);
    }
    if status.helperVersion == row.version {
      return row.(phase := At(Success), reason := "", finishedAt := now);
    }
    var command := EnqueueLocked(s, row.server, "helper.update", Artifact(row.version, true), now, true, draw(i));
    if command.None? {
      return row.(phase := At(Failed), reason := REFUSED, finishedAt := now);
    }
    GrowsOnce(queues0, old(s.queues), row.server, command.value, draw, now);
    return row.(phase := At(Dispatching), startedAt := now, commandId := command.value.id);
  }

  /** Rows handled so far: rows get their turn from the front, and a row is left waiting only
      once two are running. */
  ghost predicate InTurn(rows: seq<Row>, done: seq<Row>, active: nat, now: int) {
    |done| <= |rows| &&
    (forall k :: 0 <= k < |done| ==> DispatchStep(rows[k], done[k], now)) &&
    (forall k :: 0 <= k < |done| && Waiting(done[k]) ==> active >= 2) &&
    (forall j, k :: 0 <= j < k < |done| && Waiting(done[j]) ==> done[k] == rows[k])
  }

  lemma InTurnMore(rows: seq<Row>, done: seq<Row>, row: Row, active: nat, active': nat, now: int)
    requires InTurn(rows, done, active, now) && |done| < |rows| && active <= active'
    requires DispatchStep(rows[|done|], row, now)
    requires Waiting(row) ==> active' >= 2
    requires active >= 2 ==> row == rows[|done|]
    ensures InTurn(rows, done + [row], active', now)
  {
    var more := done + [row];
    assert more[|done|] == row && forall k :: 0 <= k < |done| ==> more[k] == done[k];
  }

  /** One row of the second pass; only waiting rows get a turn, and only while fewer than two run. */
  method TakeTurn(s: HelperState, row: Row, known: map<string, Server>, active: nat, now: int, draw: Draw, i: nat,
                  ghost queues0: map<string, seq<Command>>)
    returns (r: Row, running: nat)
    requires AllGrown(queues0, s.queues, draw, now)
    modifies s`queues, s`statuses
    ensures DispatchStep(row, r, now) && AllGrown(queues0, s.queues, draw, now)
    ensures active <= running <= (if active > 2 then active else 2)
    ensures running - active == (if Running(r) then 1 else 0) - (if Running(row) then 1 else 0)
    ensures Waiting(r) ==> running >= 2
    ensures active >= 2 ==> r == row
    ensures r == row ==> s.queues == old(s.queues) && s.statuses == old(s.statuses)
    ensures if !Waiting(row) || active >= 2 then r == row
            else Outcome(old(SceneOf(s, known, now, draw)), row, r, draw(i), QueueOf(s.queues, row.server))
    ensures forall k :: k != row.server ==> QueueOf(s.queues, k) == QueueOf(old(s.queues), k)
    ensures forall k :: k != row.server ==> StatusOf(s.statuses, k) == StatusOf(old(s.statuses), k)
  {
    if !Waiting(row) || active >= 2 {
      return row, active;
    }
    r := DispatchRow(s, row, known, now, draw, i, queues0);
    running := if Running(r) then active + 1 else active;
  }

  /** The rows that had their turn, and how many run. */
  ghost predicate Dispatched(rows: seq<Row>, done: seq<Row>, running: nat, active: nat, now: int) {
    InTurn(rows, done, active, now) && running <= active <= (if running > 2 then running else 2) &&
    active == CountRunning(done) + running - CountRunning(rows[..|done|])
  }

  lemma DispatchedMore(rows: seq<Row>, done: seq<Row>, row: Row, running: nat, active: nat, active': nat, now: int)
    requires Dispatched(rows, done, running, active, now) && |done| < |rows|
    requires active <= active' <= (if active > 2 then active else 2) && DispatchStep(rows[|done|], row, now)
    requires active' - active == (if Running(row) then 1 else 0) - (if Running(rows[|done|]) then 1 else 0)
    requires (Waiting(row) ==> active' >= 2) && (active >= 2 ==> row == rows[|done|])
    ensures Dispatched(rows, done + [row], running, active', now)
  {
    InTurnMore(rows, done, row, active, active', now);
    assert rows[..|done| + 1] == rows[..|done|] + [rows[|done|]];
    OneMoreRow(rows[..|done|], rows[|done|]);
    OneMoreRow(done, row);
  }

  /** How many rows run when row `k` would have its turn: those of the rows before it as they are
      now, and those of the others as they were. */
  function RunningAt(rows: seq<Row>, done: seq<Row>, k: nat): int
    requires k <= |done| && k <= |rows|
  {
    CountRunning(done[..k]) + CountRunning(rows) - CountRunning(rows[..k])
  }

  /** Row `k` after its turn: unchanged if it was not waiting or two were running, and otherwise as
      its turn makes it. */
  ghost predicate RowTurned(c: Scene, rows: seq<Row>, done: seq<Row>, k: nat, queues: map<string, seq<Command>>)
    requires k < |done| && k < |rows|
  {
    if !Waiting(rows[k]) then done[k] == rows[k]
    else if RunningAt(rows, done, k) >= 2 then
      done[k] == rows[k] && QueueOf(queues, rows[k].server) == QueueOf(c.queues, rows[k].server)
    else Outcome(c, rows[k], done[k], c.draw(k), QueueOf(queues, rows[k].server))
  }

  /** All rows that had their turn, and that the servers of the others are as they were. */
  ghost predicate Turned(c: Scene, rows: seq<Row>, done: seq<Row>, queues: map<string, seq<Command>>,
                         statuses: map<string, Status>) {
    |done| <= |rows| &&
    (forall k :: 0 <= k < |done| ==> RowTurned(c, rows, done, k, queues)) &&
    (forall k :: |done| <= k < |rows| && Waiting(rows[k]) ==>
       QueueOf(queues, rows[k].server) == QueueOf(c.queues, rows[k].server) &&
       StatusOf(statuses, rows[k].server) == StatusOf(c.statuses, rows[k].server))
  }

  /** A row's turn depends only on its own server. */
  lemma SameTurn(c: Scene, c': Scene, row: Row, r: Row, id: Option<string>, queue: seq<Command>)
    requires Outcome(c', row, r, id, queue)
    requires c' == c.(queues := c'.queues, statuses := c'.statuses)
    requires QueueOf(c'.queues, row.server) == QueueOf(c.queues, row.server)
    requires StatusOf(c'.statuses, row.server) == StatusOf(c.statuses, row.server)
    ensures Outcome(c, row, r, id, queue)
  {
  }

  lemma TurnedMore(c: Scene, rows: seq<Row>, done: seq<Row>, row: Row, queues: map<string, seq<Command>>,
                   statuses: map<string, Status>, queues': map<string, seq<Command>>, statuses': map<string, Status>)
    requires OneRowPerServer(rows) && Turned(c, rows, done, queues, statuses) && |done| < |rows|
    requires forall k :: k != rows[|done|].server ==> QueueOf(queues', k) == QueueOf(queues, k)
    requires forall k :: k != rows[|done|].server ==> StatusOf(statuses', k) == StatusOf(statuses, k)
    requires var active := RunningAt(rows, done, |done|);
             if !Waiting(rows[|done|]) || active >= 2 then row == rows[|done|] && queues' == queues
             else Outcome(c.(queues := queues, statuses := statuses), rows[|done|], row, c.draw(|done|),
                          QueueOf(queues', rows[|done|].server))
    ensures Turned(c, rows, done + [row], queues', statuses')
  {
    var n, more := |done|, done + [row];
    assert more[..n] == done;
    if Waiting(rows[n]) && RunningAt(rows, done, n) < 2 {
      SameTurn(c, c.(queues := queues, statuses := statuses), rows[n], row, c.draw(n),
               QueueOf(queues', rows[n].server));
    }
    forall k | 0 <= k <= n
      ensures RowTurned(c, rows, more, k, queues')
    {
      assert more[..k] == done[..k];
      if k < n {
        assert RowTurned(c, rows, done, k, queues) && rows[k].server != rows[n].server;
      }
    }
    forall k | n < k < |rows| && Waiting(rows[k])
      ensures QueueOf(queues', rows[k].server) == QueueOf(c.queues, rows[k].server)
      ensures StatusOf(statuses', rows[k].server) == StatusOf(c.statuses, rows[k].server)
    {
      assert rows[n].server != rows[k].server;
    }
  }

  /** The scene at the beginning of the pass: only queues and statuses have changed since. */
  ghost predicate Began(c: Scene, s: HelperState, known: map<string, Server>, now: int, draw: Draw)
    reads s
  {
    SceneOf(s, known, now, draw) == c.(queues := s.queues, statuses := s.statuses)
  }

  ghost predicate TurnedIfDistinct(c: Scene, rows: seq<Row>, done: seq<Row>, queues: map<string, seq<Command>>,
                                   statuses: map<string, Status>) {
    OneRowPerServer(rows) ==> Turned(c, rows, done, queues, statuses)
  }

  /** The state in the middle of the pass. */
  ghost predicate Passing(c: Scene, s: HelperState, rows: seq<Row>, done: seq<Row>, known: map<string, Server>,
                          running: nat, active: nat, now: int, draw: Draw)
    reads s
  {
    Dispatched(rows, done, running, active, now) && Began(c, s, known, now, draw) &&
    AllGrown(c.queues, s.queues, draw, now) && TurnedIfDistinct(c, rows, done, s.queues, s.statuses) &&
    (done == rows[..|done|] ==> s.queues == c.queues && s.statuses == c.statuses)
  }

  /** One row of the pass. */
  method NextTurn(s: HelperState, rows: seq<Row>, done: seq<Row>, known: map<string, Server>, running: nat,
                  active: nat, now: int, draw: Draw, ghost c: Scene)
    returns (row: Row, active': nat)
    requires running == CountRunning(rows) && |done| < |rows|
    requires Passing(c, s, rows, done, known, running, active, now, draw)
    modifies s`queues, s`statuses
    ensures Passing(c, s, rows, done + [row], known, running, active', now, draw)
  {
    ghost var queues1, statuses1 := s.queues, s.statuses;
    row, active' := TakeTurn(s, rows[|done|], known, active, now, draw, |done|, c.queues);
    DispatchedMore(rows, done, row, running, active, active', now);
    if OneRowPerServer(rows) {
      assert done[..|done|] == done;
      TurnedMore(c, rows, done, row, queues1, statuses1, s.queues, s.statuses);
    }
    if done + [row] == rows[..|done| + 1] {
      assert (done + [row])[..|done|] == done && (done + [row])[|done|] == row;
      assert rows[..|done| + 1][..|done|] == rows[..|done|];
    }
  }

  /** The second pass.  With one row per server every waiting row has its turn exactly as described. */
  method DispatchAll(s: HelperState, rows: seq<Row>, known: map<string, Server>, running: nat, now: int, draw: Draw)
    returns (after: seq<Row>)
    requires running == CountRunning(rows)
    modifies s`queues, s`statuses
    ensures |after| == |rows| && InTurn(rows, after, CountRunning(after), now)
    ensures CountRunning(after) <= if running > 2 then running else 2
    ensures AllGrown(old(s.queues), s.queues, draw, now)
    ensures after == rows ==> s.queues == old(s.queues) && s.statuses == old(s.statuses)
    ensures TurnedIfDistinct(old(SceneOf(s, known, now, draw)), rows, after, s.queues, s.statuses)
  {
    after := [];
    ghost var scene := SceneOf(s, known, now, draw);
    var active: nat := running;
    for i := 0 to |rows|
      invariant |after| == i && Passing(scene, s, rows, after, known, running, active, now, draw)
    {
      var row, active' := NextTurn(s, rows, after, known, running, active, now, draw, scene);
      active := active';
      after := after + [row];
    }
    assert rows[..|rows|] == rows;
  }

  // ---------- one tick ----------

  /** What a tick may make of a row. */
  ghost predicate RowStep(before: Row, after: Row, now: int) {
    after.server == before.server && after.version == before.version &&
    if Running(before) then
      after.phase.At? && after.startedAt == before.startedAt && after.commandId == before.commandId &&
      (Running(after) ==> !Overdue(before, now))
    else if Waiting(before) then
      after == before ||
      (after.phase.At? && (Terminal(after.phase.phase) || (after.phase.phase == Dispatching && after.startedAt == now)))
    else after == before
  }

  /** What a tick may make of the rows. */
  ghost predicate Tick(before: seq<Row>, after: seq<Row>, now: int) {
    |after| == |before| &&
    (forall i :: 0 <= i < |before| ==> RowStep(before[i], after[i], now)) &&
    (CountRunning(before) <= 2 ==> CountRunning(after) <= 2) &&
    ((exists i :: 0 <= i < |after| && Waiting(after[i])) ==> CountRunning(after) >= 2)
  }

  lemma {:induction false} ObservingStartsNothing(rows: seq<Row>, after: seq<Row>, now: int)
    requires |after| == |rows| && forall i :: 0 <= i < |rows| ==> ObservedStep(rows[i], after[i], now)
    ensures CountRunning(after) <= CountRunning(rows)
  {
    if rows != [] {
      var n := |rows| - 1;
      assert ObservedStep(rows[n], after[n], now);
      ObservingStartsNothing(rows[..n], after[..n], now);
    }
  }

  lemma BothPassesAreATick(rows: seq<Row>, middle: seq<Row>, after: seq<Row>, now: int,
                           queues: map<string, seq<Command>>)
    requires |middle| == |rows| && Handled(rows, middle, now, queues)
    requires |after| == |rows| && InTurn(middle, after, CountRunning(after), now)
    requires CountRunning(after) <= if CountRunning(middle) > 2 then CountRunning(middle) else 2
    ensures Tick(rows, after, now)
  {
    ObservingStartsNothing(rows, middle, now);
    forall i | 0 <= i < |rows| ensures RowStep(rows[i], after[i], now) {
      assert ObservedStep(rows[i], middle[i], now) && DispatchStep(middle[i], after[i], now);
    }
  }

  lemma UnchangedMeansBothIdle(rows: seq<Row>, middle: seq<Row>, after: seq<Row>, now: int,
                               queues: map<string, seq<Command>>)
    requires |middle| == |rows| && Handled(rows, middle, now, queues)
    requires |after| == |rows| && InTurn(middle, after, CountRunning(after), now)
    requires after == rows
    ensures middle == rows
  {
    forall i | 0 <= i < |rows| ensures middle[i] == rows[i] {
      assert ObservedStep(rows[i], middle[i], now) && DispatchStep(middle[i], after[i], now);
    }
  }

  /** A step of a queue that adds nothing but an upgrade, with a drawn identifier. */
  ghost predicate UpgradeStep(before: seq<Command>, after: seq<Command>, draw: Draw) {
    exists new' :: Stepped(before, after, new') &&
                   (new'.Some? ==> new'.value.action == "helper.update" && Drawn(draw, new'.value.id))
  }

  lemma TrimmedThenGrown(before: seq<Command>, middle: seq<Command>, after: seq<Command>, draw: Draw, now: int)
    requires Subsequence(Bodies(middle), Bodies(before)) && Grown(middle, after, draw, now)
    ensures UpgradeStep(before, after, draw)
  {
    if after != middle {
      assert after[..|after| - 1] == middle;
      assert Stepped(before, after, Some(after[|after| - 1]));
    } else {
      assert Stepped(before, after, None);
    }
  }

  /** The rows after the first pass, as the reports known at the beginning make them. */
  function ObservedRows(rows: seq<Row>, statuses: map<string, Status>, now: int): (r: seq<Row>)
    ensures |r| == |rows|
  {
    seq(|rows|, k requires 0 <= k < |rows| =>
      if Running(rows[k]) then Observed(rows[k], StatusOf(statuses, rows[k].server).update, now) else rows[k])
  }

  /** With one row per server: the running rows follow their reports, and then every waiting row has
      its turn, in order, while fewer than two run. */
  ghost predicate TickIs(c: Scene, rows: seq<Row>, after: seq<Row>, queues: map<string, seq<Command>>) {
    OneRowPerServer(rows) ==>
      |after| == |rows| &&
      forall k :: 0 <= k < |rows| ==> RowTurned(c, ObservedRows(rows, c.statuses, c.now), after, k, queues)
  }

  lemma BothPassesAre(c: Scene, c': Scene, rows: seq<Row>, middle: seq<Row>, after: seq<Row>,
                      queues: map<string, seq<Command>>, statuses: map<string, Status>)
    requires |middle| == |rows| == |after|
    requires OneRowPerServer(rows) ==> AsReported(rows, middle, c.now, c.statuses)
    requires OneRowPerServer(rows) ==> WaitersUntouched(rows, c.queues, c'.queues, c.statuses, c'.statuses)
    requires forall k :: 0 <= k < |rows| ==> middle[k].server == rows[k].server
    requires c' == c.(queues := c'.queues, statuses := c'.statuses)
    requires TurnedIfDistinct(c', middle, after, queues, statuses)
    ensures TickIs(c, rows, after, queues)
  {
    if OneRowPerServer(rows) {
      assert middle == ObservedRows(rows, c.statuses, c.now);
      forall k | 0 <= k < |rows|
        ensures RowTurned(c, middle, after, k, queues)
      {
        assert RowTurned(c', middle, after, k, queues);
        if Waiting(middle[k]) {
          if Running(rows[k]) {
            ObservedNeverWaits(rows[k], StatusOf(c.statuses, rows[k].server).update, c.now);
          }
          assert Waiting(rows[k]);
          if RunningAt(middle, after, k) < 2 {
            SameTurn(c, c', middle[k], after[k], c.draw(k), QueueOf(queues, middle[k].server));
          }
        }
      }
    }
  }

  /** A waiting row whose server is online and able, and whose turn comes while fewer than two run, runs
      after the tick, with its command at the end of its server's queue. */
  lemma AbleRowRuns(c: Scene, rows: seq<Row>, after: seq<Row>, queues: map<string, seq<Command>>, k: nat)
    requires OneRowPerServer(rows) && TickIs(c, rows, after, queues) && k < |rows| && Waiting(rows[k])
    requires IsOnline(c, rows[k]) && StatusOf(c.statuses, rows[k].server).helperVersion != rows[k].version
    requires Able(c, rows[k]) && c.draw(k).Some?
    requires RunningAt(ObservedRows(rows, c.statuses, c.now), after, k) < 2
    ensures Running(after[k]) && after[k].commandId == c.draw(k).value && after[k].startedAt == c.now
    ensures var queue := QueueOf(queues, rows[k].server);
            queue != [] && queue[|queue| - 1].id == after[k].commandId &&
            queue[|queue| - 1].action == "helper.update" &&
            queue[|queue| - 1].payload == Artifact(rows[k].version, true)
  {
    assert RowTurned(c, ObservedRows(rows, c.statuses, c.now), after, k, queues);
  }

  lemma SameServers(rows: seq<Row>, middle: seq<Row>, now: int, queues: map<string, seq<Command>>)
    requires |middle| == |rows| && Handled(rows, middle, now, queues)
    ensures forall k :: 0 <= k < |rows| ==> middle[k].server == rows[k].server
  {
    forall k | 0 <= k < |rows|
      ensures middle[k].server == rows[k].server
    {
      assert ObservedStep(rows[k], middle[k], now);
    }
  }

  lemma ObservedNeverWaits(row: Row, update: Option<Progress>, now: int)
    requires Running(row)
    ensures !Waiting(Observed(row, update, now)) && Observed(row, update, now).server == row.server
  {
  }

  /** The rows of a job, both passes. */
  method Turn(s: HelperState, servers: seq<Server>, rows: seq<Row>, now: int, draw: Draw) returns (after: seq<Row>)
    modifies s`queues, s`statuses
    ensures Tick(rows, after, now)
    ensures forall k :: UpgradeStep(QueueOf(old(s.queues), k), QueueOf(s.queues, k), draw)
    ensures after == rows ==> s.queues == old(s.queues) && s.statuses == old(s.statuses)
    ensures TickIs(old(SceneOf(s, DirectoryOf(servers), now, draw)), rows, after, s.queues)
  {
    ghost var queues0, scene := s.queues, SceneOf(s, DirectoryOf(servers), now, draw);
    var middle, active := ObserveAll(s, rows, now);
    ghost var queues1 := s.queues;
    var known := Directory(servers);
    ghost var scene' := SceneOf(s, known, now, draw);
    after := DispatchAll(s, middle, known, active, now, draw);
    SameServers(rows, middle, now, queues1);
    BothPassesAre(scene, scene', rows, middle, after, s.queues, s.statuses);
    BothPassesAreATick(rows, middle, after, now, queues1);
    if after == rows {
      UnchangedMeansBothIdle(rows, middle, after, now, queues1);
    }
    forall k ensures UpgradeStep(QueueOf(queues0, k), QueueOf(s.queues, k), draw) {
      TrimmedThenGrown(QueueOf(queues0, k), QueueOf(queues1, k), QueueOf(s.queues, k), draw, now);
    }
  }

  predicate IsActive(job: Option<Job>) {
    job.Some? && job.value.phase == Active
  }

  /** A tick of the scheduler.  The job, the queues and the statuses change together, or, when
      the save fails, not at all. */
  method Advance(s: HelperState, servers: seq<Server>, now: int, draw: Draw, saveOk: bool) returns (ok: bool)
    requires Healthy(s.job)
    modifies s`job, s`queues, s`statuses
    ensures Healthy(s.job)
    ensures !(old(s.job).Some? && old(s.job).value.phase == Active) || !ok ==>
              s.job == old(s.job) && s.queues == old(s.queues) && s.statuses == old(s.statuses)
    ensures s.job == old(s.job) ==> s.queues == old(s.queues) && s.statuses == old(s.statuses)
    ensures !ok ==> !saveOk
    ensures !saveOk ==> s.job == old(s.job) && s.queues == old(s.queues) && s.statuses == old(s.statuses)
    ensures old(s.job).Some? && old(s.job).value.phase == Active && ok ==>
              s.job.Some? && Tick(old(s.job).value.rows, s.job.value.rows, now) &&
              (s.job.value.phase == Unsuccessful <==> !AnyOpen(s.job.value.rows) && AnyFailed(s.job.value.rows))
    ensures forall k :: UpgradeStep(QueueOf(old(s.queues), k), QueueOf(s.queues, k), draw)
    ensures old(s.job).Some? && old(s.job).value.phase == Active && saveOk ==>
              s.job.Some? &&
              TickIs(old(SceneOf(s, DirectoryOf(servers), now, draw)), old(s.job).value.rows, s.job.value.rows,
                     s.queues)
  {
    forall k ensures UpgradeStep(QueueOf(s.queues, k), QueueOf(s.queues, k), draw) {
      StayingIsAStep(QueueOf(s.queues, k));
    }
    if !IsActive(s.job) {
      return true;
    }
    var previous, oldQueues, oldStatuses := s.job, s.queues, s.statuses;
    var rows := Turn(s, servers, previous.value.rows, now, draw);
    var job := Finish(previous.value.(rows := rows), now);
    if job == previous.value {
      s.queues, s.statuses := oldQueues, oldStatuses;
      return true;
    }
    s.job := Some(job.(updatedAt := now));
    if !saveOk {
      s.job, s.queues, s.statuses := previous, oldQueues, oldStatuses;
      return false;
    }
    return true;
  }

  // ---------- all runs ----------

  lemma {:induction false} LoadNeverGrows(before: seq<Row>, after: seq<Row>, now: int)
    requires |after| == |before| && forall i :: 0 <= i < |before| ==> RowStep(before[i], after[i], now)
    ensures Load(after) <= Load(before)
    ensures (exists i :: 0 <= i < |before| && Running(before[i]) && Overdue(before[i], now)) ==>
              Load(after) < Load(before)
    ensures forall i :: 0 <= i < |before| && Running(before[i]) && !Running(after[i]) ==> Load(after) < Load(before)
  {
    if before != [] {
      var n := |before| - 1;
      assert RowStep(before[n], after[n], now);
      LoadNeverGrows(before[..n], after[..n], now);
      if i :| 0 <= i < |before| && Running(before[i]) && Overdue(before[i], now) {
        if i < n {
          assert Running(before[..n][i]) && Overdue(before[..n][i], now);
        }
      }
    }
  }

  lemma {:induction false} LoadOfOpenRows(rows: seq<Row>)
    ensures AnyOpen(rows) ==> Load(rows) > 0
  {
    if rows != [] {
      var init := rows[..|rows| - 1];
      assert rows == init + [rows[|rows| - 1]];
      LoadOfOpenRows(init);
    }
  }

  /** Every running row was dispatched by then. */
  ghost predicate StartedBy(rows: seq<Row>, time: int) {
    forall row :: row in rows && Running(row) ==> row.startedAt <= time
  }

  lemma TickKeepsStarts(before: seq<Row>, after: seq<Row>, time: int, now: int)
    requires Tick(before, after, now) && StartedBy(before, time) && time <= now
    ensures StartedBy(after, now)
  {
    forall row | row in after && Running(row) ensures row.startedAt <= now {
      var i :| 0 <= i < |after| && after[i] == row;
      assert RowStep(before[i], after[i], now) && before[i] in before;
    }
  }

  /** After a tick, open rows mean that something runs. */
  lemma OpenMeansRunning(before: seq<Row>, rows: seq<Row>, now: int) returns (r: nat)
    requires Tick(before, rows, now) && AnyOpen(rows)
    ensures r < |rows| && Running(rows[r])
  {
    var row :| row in rows && Open(row);
    var i :| 0 <= i < |rows| && rows[i] == row;
    RunningCounts(rows);
    r :| 0 <= r < |rows| && Running(rows[r]);
  }

  /** The rows over any number of ticks, at times that do not go back. */
  ghost predicate Ticks(run: seq<seq<Row>>, times: seq<int>) {
    |run| == |times| + 1 && (times != [] ==> StartedBy(run[0], times[0])) &&
    (forall k :: 0 <= k < |times| ==> Tick(run[k], run[k + 1], times[k])) &&
    forall j, k :: 0 <= j <= k < |times| ==> times[j] <= times[k]
  }

  lemma {:induction false} StartsOfRun(run: seq<seq<Row>>, times: seq<int>, k: nat)
    requires Ticks(run, times) && k < |times|
    ensures StartedBy(run[k + 1], times[k])
  {
    if k == 0 {
      TickKeepsStarts(run[0], run[1], times[0], times[0]);
    } else {
      StartsOfRun(run, times, k - 1);
      assert Tick(run[k], run[k + 1], times[k]);
      TickKeepsStarts(run[k], run[k + 1], times[k - 1], times[k]);
    }
  }

  lemma NothingReopens(before: seq<Row>, after: seq<Row>, now: int)
    requires Tick(before, after, now) && !AnyOpen(before)
    ensures after == before
  {
    forall i | 0 <= i < |before| ensures after[i] == before[i] {
      assert before[i] in before && RowStep(before[i], after[i], now);
    }
  }

  lemma {:induction false} LoadOfRun(run: seq<seq<Row>>, times: seq<int>, i: nat, j: nat)
    requires Ticks(run, times) && i <= j <= |times|
    ensures Load(run[j]) <= Load(run[i])
    ensures !AnyOpen(run[i]) ==> run[j] == run[i]
    decreases j
  {
    if i < j {
      LoadOfRun(run, times, i, j - 1);
      assert Tick(run[j - 1], run[j - 1 + 1], times[j - 1]);
      LoadNeverGrows(run[j - 1], run[j], times[j - 1]);
      if !AnyOpen(run[i]) {
        NothingReopens(run[j - 1], run[j], times[j - 1]);
      }
    }
  }

  /** A running row goes on running, or the load has dropped. */
  lemma {:induction false} RunsOnOrDrops(run: seq<seq<Row>>, times: seq<int>, i: nat, j: nat, r: nat)
    requires Ticks(run, times) && i <= j <= |times| && r < |run[i]| && Running(run[i][r])
    ensures Load(run[j]) < Load(run[i]) ||
            (r < |run[j]| && Running(run[j][r]) && run[j][r].startedAt == run[i][r].startedAt)
    decreases j
  {
    if i < j {
      RunsOnOrDrops(run, times, i, j - 1, r);
      LoadOfRun(run, times, i, j - 1);
      var before, after := run[j - 1], run[j];
      assert Tick(before, run[j - 1 + 1], times[j - 1]);
      LoadNeverGrows(before, after, times[j - 1]);
      if r < |before| && Running(before[r]) {
        assert RowStep(before[r], after[r], times[j - 1]);
      }
    }
  }

  /** However often the scheduler ticks: if rows are open after a tick, the load is lower after any
      tick five minutes later. */
  lemma LaterTickLowersTheLoad(run: seq<seq<Row>>, times: seq<int>, i: nat, j: nat)
    requires Ticks(run, times) && i < j < |times|
    requires AnyOpen(run[i + 1]) && times[j] >= times[i] + BATCH_TIMEOUT
    ensures Load(run[j + 1]) < Load(run[i + 1])
  {
    assert Tick(run[i], run[i + 1], times[i]) && Tick(run[j], run[j + 1], times[j]);
    var r := OpenMeansRunning(run[i], run[i + 1], times[i]);
    StartsOfRun(run, times, i);
    assert run[i + 1][r] in run[i + 1];
    RunsOnOrDrops(run, times, i + 1, j, r);
    LoadOfRun(run, times, i + 1, j);
    LoadNeverGrows(run[j], run[j + 1], times[j]);
    if r < |run[j]| && Running(run[j][r]) && run[j][r].startedAt == run[i + 1][r].startedAt {
      assert Overdue(run[j][r], times[j]);
    }
  }

  /** Some of the ticks, five minutes or more apart. */
  ghost predicate Spaced(times: seq<int>, picks: seq<nat>) {
    (forall p :: 0 <= p < |picks| ==> picks[p] < |times|) &&
    forall p :: 0 < p < |picks| ==> picks[p - 1] < picks[p] && times[picks[p]] >= times[picks[p - 1]] + BATCH_TIMEOUT
  }

  lemma {:induction false} LoadAtPick(run: seq<seq<Row>>, times: seq<int>, picks: seq<nat>, p: nat)
    requires Ticks(run, times) && Spaced(times, picks) && p < |picks|
    ensures Load(run[picks[p] + 1]) + p <= Load(run[0]) || !AnyOpen(run[picks[p] + 1])
  {
    if p == 0 {
      LoadOfRun(run, times, 0, picks[0] + 1);
    } else {
      LoadAtPick(run, times, picks, p - 1);
      NextPick(run, times, picks[p - 1], picks[p]);
    }
  }

  lemma NextPick(run: seq<seq<Row>>, times: seq<int>, i: nat, j: nat)
    requires Ticks(run, times) && i < j < |times| && times[j] >= times[i] + BATCH_TIMEOUT
    ensures Load(run[j + 1]) < Load(run[i + 1]) || !AnyOpen(run[j + 1])
    ensures !AnyOpen(run[i + 1]) ==> !AnyOpen(run[j + 1])
  {
    if AnyOpen(run[i + 1]) {
      LaterTickLowersTheLoad(run, times, i, j);
    } else {
      LoadOfRun(run, times, i + 1, j + 1);
    }
  }

  /** Whatever is reported and however often the scheduler ticks: a batch is over once more ticks
      than the load at the start lie five minutes apart. */
  lemma BatchEnds(run: seq<seq<Row>>, times: seq<int>, picks: seq<nat>)
    requires Ticks(run, times) && Spaced(times, picks) && |picks| > Load(run[0])
    ensures !AnyOpen(run[picks[|picks| - 1] + 1])
  {
    var last := |picks| - 1;
    LoadAtPick(run, times, picks, last);
    LoadOfOpenRows(run[picks[last] + 1]);
  }

  predicate AtMostApart(times: seq<int>, gap: nat) {
    forall k :: 0 < k < |times| ==> times[k] <= times[k - 1] + gap
  }

  /** The first of the times from `t` on. */
  lemma FirstFrom(times: seq<int>, i: nat, n: nat, t: int, gap: nat) returns (j: nat)
    requires i < n < |times| && times[i] < t <= times[n] && AtMostApart(times, gap)
    ensures i < j <= n && t <= times[j] <= t + gap
  {
    j := i + 1;
    while times[j] < t
      invariant i < j <= n && times[j - 1] < t
      decreases n - j
    {
      j := j + 1;
    }
  }

  lemma {:induction false} TimeLeft(load: nat, rest: nat, round: nat, start: int, middle: int, end: int)
    requires rest < load && end >= start + load * round && middle <= start + round
    ensures end >= middle + rest * round
    decreases load
  {
    assert load * round == (load - 1) * round + round;
    if rest < load - 1 {
      TimeLeft(load - 1, rest, round, start, middle, end);
    }
  }

  lemma {:induction false} EndsFrom(run: seq<seq<Row>>, times: seq<int>, gap: nat, i: nat, n: nat)
    requires Ticks(run, times) && i <= n < |times| && AtMostApart(times, gap)
    requires times[n] >= times[i] + Load(run[i + 1]) * (BATCH_TIMEOUT + gap)
    ensures !AnyOpen(run[n + 1])
    decreases Load(run[i + 1])
  {
    var load := Load(run[i + 1]);
    if AnyOpen(run[i + 1]) {
      LoadOfOpenRows(run[i + 1]);
      TimeLeft(load, 0, BATCH_TIMEOUT + gap, times[i], times[i] + BATCH_TIMEOUT + gap, times[n]);
      var j := FirstFrom(times, i, n, times[i] + BATCH_TIMEOUT, gap);
      LaterTickLowersTheLoad(run, times, i, j);
      TimeLeft(load, Load(run[j + 1]), BATCH_TIMEOUT + gap, times[i], times[j], times[n]);
      EndsFrom(run, times, gap, j, n);
    } else {
      LoadOfRun(run, times, i + 1, n + 1);
    }
  }

  /** With ticks at most `gap` apart, a batch is over after as many times five minutes and a gap as
      its load at the start. */
  lemma BatchEndsInTime(run: seq<seq<Row>>, times: seq<int>, gap: nat, n: nat)
    requires Ticks(run, times) && n < |times| && AtMostApart(times, gap)
    requires times[n] >= times[0] + Load(run[0]) * (BATCH_TIMEOUT + gap)
    ensures !AnyOpen(run[n + 1])
  {
    LoadOfRun(run, times, 0, 1);
    if Load(run[1]) < Load(run[0]) {
      TimeLeft(Load(run[0]), Load(run[1]), BATCH_TIMEOUT + gap, times[0], times[0], times[n]);
    }
    EndsFrom(run, times, gap, 0, n);
  }

  lemma {:induction false} LoadIsBounded(rows: seq<Row>)
    ensures Load(rows) == 2 * CountWaiting(rows) + CountRunning(rows) <= 2 * |rows|
  {
    if rows != [] {
      LoadIsBounded(rows[..|rows| - 1]);
    }
  }

  /** So a batch over n servers is over after 2n times five minutes and a gap. */
  lemma EveryBatchEnds(run: seq<seq<Row>>, times: seq<int>, gap: nat, n: nat)
    requires Ticks(run, times) && n < |times|
    requires forall k :: 0 < k < |times| ==> times[k] - times[k - 1] <= gap
    requires times[n] >= times[0] + 2 * |run[0]| * (300 + gap)
    ensures forall row :: row in run[n + 1] ==> !Unfinished(row)
  {
    LoadIsBounded(run[0]);
    MoreRounds(Load(run[0]), 2 * |run[0]|, 300 + gap);
    BatchEndsInTime(run, times, gap, n);
  }

  lemma MoreRounds(load: nat, more: nat, round: nat)
    requires load <= more
    ensures load * round <= more * round
  {
  }
}
