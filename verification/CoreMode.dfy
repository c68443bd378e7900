/** Bringing a server's core to the desired mode: each report is compared with the desired and
    the officially recorded mode, and repair commands are issued one at a time, with pauses. */
module CoreMode {

  import opened Basics
  import opened Management
  import opened ManagementQueue

  const APPLY := "core.mode.apply"
  const DRIFT_GRACE := 20
  const HEARTBEAT_TIMEOUT := 90
  const SESSION_REQUIRED := "an active official administrator session is required for Core handoff"
  const UPGRADE_REQUIRED := "Helper upgrade required for desired-state repair"

  datatype Ownership = Ownership(enabled: bool, serviceOwned: bool, runtimeOwned: bool, singleCore: bool,
                                 serviceActive: bool, coreReady: bool)

  /** What the agent reports. */
  datatype Agent = Agent(reportedAt: Option<int>, coreMode: string, ownership: Ownership, canApply: bool,
                         machineId: string)

  /** What the official controller has recorded. */
  datatype Runtime = Runtime(connected: bool, lastHeartbeat: Option<int>, mode: string)

  predicate LocallyHealthy(desired: string, agent: Agent, now: int) {
    agent.reportedAt.Some? && now - agent.reportedAt.value <= STALE_TIMEOUT &&
    if desired == "embedded" then agent.coreMode == "embedded" && !agent.ownership.enabled
    else agent.coreMode == "external" && agent.ownership == Ownership(true, true, true, true, true, true)
  }

  predicate Healthy(desired: string, agent: Agent, runtime: Runtime, now: int) {
    runtime.connected && (runtime.lastHeartbeat.None? || now - runtime.lastHeartbeat.value <= HEARTBEAT_TIMEOUT) &&
    runtime.mode == desired && LocallyHealthy(desired, agent, now)
  }

  predicate FormalKnown(runtime: Runtime) {
    runtime.mode in {"embedded", "external"}
  }

  /** The pause after so many attempts: 1, 5, 15, then always 30 minutes. */
  function RepairDelay(attempts: nat): int {
    if attempts == 0 then 0
    else if attempts == 1 then 60
    else if attempts == 2 then 300
    else if attempts == 3 then 900
    else 1800
  }

  lemma RepairDelays(attempts: nat)
    requires attempts > 0
    ensures RepairDelay(attempts) == 60 * (if attempts == 1 then 1 else if attempts == 2 then 5
                                           else if attempts == 3 then 15 else 30)
  {
  }

  predicate Live(c: Command, now: int) {
    c.action == APPLY && now < c.expiresAt
  }

  predicate AnyLive(queue: seq<Command>, now: int) {
    exists c :: c in queue && Live(c, now)
  }

  /** At most one repair command could still run. */
  ghost predicate AtMostOneLive(queue: seq<Command>, now: int) {
    forall i, j :: 0 <= i < j < |queue| ==> !(Live(queue[i], now) && Live(queue[j], now))
  }

  // ---------- what a pass has to do ----------

  /** The recorded mode is adopted unless a change requested here is pending. */
  predicate Adopts(intent: Intent, runtime: Runtime) {
    !intent.pending && FormalKnown(runtime) && intent.desired != runtime.mode
  }

  predicate FormalChange(intent: Intent, runtime: Runtime) {
    FormalKnown(runtime) && intent.lastObserved != "" && intent.lastObserved != runtime.mode
  }

  predicate FormallyChanged(intent: Intent, runtime: Runtime) {
    FormalChange(intent, runtime) || Adopts(intent, runtime)
  }

  function DesiredAfter(intent: Intent, runtime: Runtime): string {
    if Adopts(intent, runtime) then runtime.mode else intent.desired
  }

  /** The drift has lasted long enough, or needs no waiting. */
  predicate DriftIsSettled(intent: Intent, runtime: Runtime, now: int) {
    intent.pending || FormallyChanged(intent, runtime) ||
    (intent.driftAt.Some? && now - intent.driftAt.value > DRIFT_GRACE)
  }

  /** A pause is over, or there is none. */
  predicate MayRetry(next: Option<int>, now: int) {
    next.None? || now >= next.value
  }

  /** Attempts and pause after a pass that does not find the server healthy. */
  function AttemptsAfter(intent: Intent, runtime: Runtime, tried: bool): nat {
    (if Adopts(intent, runtime) then 0 else intent.attempts) + if tried then 1 else 0
  }

  function NextAfter(intent: Intent, runtime: Runtime, tried: bool, now: int): Option<int> {
    if tried then Some(now + RepairDelay(AttemptsAfter(intent, runtime, tried)))
    else if Adopts(intent, runtime) then None
    else intent.nextRepairAt
  }

  predicate Tried(result: Option<Result>) {
    result.Some? && result.value.action == APPLY
  }

  /** Exactly when a repair command is called for. */
  predicate RepairIsDue(intent: Intent, queue: seq<Command>, agent: Agent, runtime: Runtime, tried: bool, now: int) {
    var desired := DesiredAfter(intent, runtime);
    !Healthy(desired, agent, runtime, now) &&
    !AnyLive(queue, now) &&
    !(runtime.mode == desired && LocallyHealthy(desired, agent, now)) &&
    DriftIsSettled(intent, runtime, now) &&
    agent.canApply &&
    MayRetry(NextAfter(intent, runtime, tried, now), now)
  }

  // ---------- what that means ----------

  /** The agent reported within 15 seconds that it runs the mode: the embedded core without owning
      one, any other mode as the one external core that it owns and that is ready. */
  ghost predicate Runs(agent: Agent, mode: string, now: int) {
    var o := agent.ownership;
    && agent.reportedAt.Some? && now <= agent.reportedAt.value + 15
    && (mode == "embedded" ==> agent.coreMode == "embedded" && !o.enabled)
    && (mode != "embedded" ==> agent.coreMode == "external" && o.enabled && o.serviceOwned && o.runtimeOwned &&
                               o.singleCore && o.serviceActive && o.coreReady)
  }

  /** The official runtime is connected, with no heartbeat recorded or one of the last 90 seconds. */
  ghost predicate Reachable(runtime: Runtime, now: int) {
    runtime.connected && (runtime.lastHeartbeat.Some? ==> now <= runtime.lastHeartbeat.value + 90)
  }

  /** The mode wanted after a pass: the recorded one, unless it is unknown or a change requested
      here is pending. */
  ghost function Wanted(intent: Intent, runtime: Runtime): string {
    if !intent.pending && (runtime.mode == "embedded" || runtime.mode == "external") then runtime.mode
    else intent.desired
  }

  /** What calls for a repair: the record or the agent is not where it should be, a change was asked
      for or recorded or the drift has lasted for more than 20 seconds, the agent can repair, no
      command could still run, and no pause does.  Neither the connection nor the heartbeat counts,
      and the pass that reports a result issues nothing. */
  ghost predicate CallsForRepair(intent: Intent, queue: seq<Command>, agent: Agent, runtime: Runtime, tried: bool,
                                 now: int) {
    var wanted := Wanted(intent, runtime);
    var seen := runtime.mode in {"embedded", "external"} && intent.lastObserved !in {"", runtime.mode};
    && !(runtime.mode == wanted && Runs(agent, wanted, now))
    && (intent.pending || wanted != intent.desired || seen ||
        (intent.driftAt.Some? && now > intent.driftAt.value + 20))
    && agent.canApply && !tried
    && (forall i :: 0 <= i < |queue| && queue[i].action == "core.mode.apply" ==> queue[i].expiresAt <= now)
    && (wanted == intent.desired && intent.nextRepairAt.Some? ==> now >= intent.nextRepairAt.value)
  }

  lemma RepairIsDueMeans(intent: Intent, queue: seq<Command>, agent: Agent, runtime: Runtime, tried: bool, now: int)
    ensures RepairIsDue(intent, queue, agent, runtime, tried, now) <==>
            CallsForRepair(intent, queue, agent, runtime, tried, now)
  {
    if AnyLive(queue, now) {
      var c :| c in queue && Live(c, now);
      var i :| 0 <= i < |queue| && queue[i] == c;
    } else {
      assert forall i :: 0 <= i < |queue| ==> queue[i] in queue;
    }
  }

  // ---------- the passes ----------

  /** A recorded mode that differs from the last one seen is noted, and flagged when it is a
      switch to embedded that was not asked for here. */
  method NoteChange(before: Intent, runtime: Runtime, now: int) returns (intent: Intent)
    ensures intent == before.(changedFrom := intent.changedFrom, changedAt := intent.changedAt,
                              unconfirmed := intent.unconfirmed)
    ensures intent.unconfirmed == if !FormalChange(before, runtime) then before.unconfirmed
                                  else runtime.mode == "embedded" &&
                                       !(before.pending && before.source == CustomExplicit &&
                                         before.desired == runtime.mode)
    ensures !FormalChange(before, runtime) ==> intent == before
  {
    intent := before;
    if FormalKnown(runtime) && intent.lastObserved != "" && intent.lastObserved != runtime.mode {
      if intent.pending && intent.source == CustomExplicit && intent.desired == runtime.mode {
        intent := intent.(unconfirmed := false);
      } else {
        intent := intent.(changedFrom := intent.lastObserved, changedAt := now,
                          unconfirmed := runtime.mode == "embedded");
      }
    }
  }

  method Adopt(before: Intent, runtime: Runtime) returns (intent: Intent)
    ensures intent.desired == DesiredAfter(before, runtime) && intent.pending == before.pending
    ensures intent.attempts == AttemptsAfter(before, runtime, false) &&
            intent.nextRepairAt == NextAfter(before, runtime, false, 0)
    ensures intent.lastObserved == if FormalKnown(runtime) then runtime.mode else before.lastObserved
    ensures intent.driftAt == before.driftAt && intent.repair == before.repair &&
            intent.unconfirmed == before.unconfirmed
    ensures intent.waitingSince == before.waitingSince && intent.lastRepairAt == before.lastRepairAt
  {
    intent := before;
    if !intent.pending && FormalKnown(runtime) && intent.desired != runtime.mode {
      intent := intent.(desired := runtime.mode, source := Formal, attempts := 0, lastError := "",
                        nextRepairAt := None);
    }
    if FormalKnown(runtime) {
      intent := intent.(lastObserved := runtime.mode);
    }
  }

  /** Since when the official runtime is waited for, unless that is over. */
  function KeepWaiting(intent: Intent, agent: Agent, runtime: Runtime, now: int): Option<int> {
    if Healthy(intent.desired, agent, runtime, now) || runtime.mode != intent.desired ||
       !LocallyHealthy(intent.desired, agent, now) then None
    else intent.waitingSince
  }

  method Observe(before: Intent, agent: Agent, runtime: Runtime, now: int) returns (intent: Intent, formalChanged: bool)
    ensures formalChanged <==> FormallyChanged(before, runtime)
    ensures intent.desired == DesiredAfter(before, runtime) && intent.pending == before.pending
    ensures intent.attempts == AttemptsAfter(before, runtime, false) &&
            intent.nextRepairAt == NextAfter(before, runtime, false, now)
    ensures intent.lastObserved == if FormalKnown(runtime) then runtime.mode else before.lastObserved
    ensures intent.driftAt == before.driftAt && intent.repair == before.repair
    ensures intent.lastRepairAt == before.lastRepairAt
    ensures intent.waitingSince == KeepWaiting(before, agent, runtime, now)
    ensures intent.unconfirmed == if !FormalChange(before, runtime) then before.unconfirmed
                                  else runtime.mode == "embedded" &&
                                       !(before.pending && before.source == CustomExplicit &&
                                         before.desired == runtime.mode)
    ensures intent.waitingSince == if runtime.mode == before.desired && Runs(agent, before.desired, now) &&
                                      !Reachable(runtime, now) then before.waitingSince else None
  {
    intent := before.(waitingSince := KeepWaiting(before, agent, runtime, now));
    formalChanged := FormalKnown(runtime) &&
                     ((intent.lastObserved != "" && intent.lastObserved != runtime.mode) ||
                      (!intent.pending && intent.desired != runtime.mode));
    intent := NoteChange(intent, runtime, now);
    intent := Adopt(intent, runtime);
    if agent.machineId != "" {
      intent := intent.(machineId := agent.machineId);
    }
  }

  function NoteResult(intent: Intent, result: Option<Result>, now: int): Intent {
    if !Tried(result) then intent
    else intent.(lastRepairAt := result.value.completedAt, attempts := intent.attempts + 1,
                 nextRepairAt := Some(now + RepairDelay(intent.attempts + 1)),
                 lastError := if result.value.success then "" else result.value.message)
  }

  method FirstLive(queue: seq<Command>, now: int) returns (r: Option<Command>)
    ensures r.Some? <==> AnyLive(queue, now)
    ensures r.Some? ==> exists i ::
                          0 <= i < |queue| && r.value == queue[i] && Live(queue[i], now) &&
                          forall k :: 0 <= k < i ==> !Live(queue[k], now)
  {
    for i := 0 to |queue|
      invariant forall k :: 0 <= k < i ==> !Live(queue[k], now)
    {
      if Live(queue[i], now) {
        return Some(queue[i]);
      }
    }
    return None;
  }

  datatype Verdict = Settled | Repair

  /** Where the intent goes when nothing is queued and the server is not healthy. */
  method Judge(before: Intent, agent: Agent, runtime: Runtime, formalChanged: bool, now: int)
    returns (intent: Intent, verdict: Verdict)
    ensures intent.desired == before.desired && intent.pending == before.pending &&
            intent.attempts == before.attempts && intent.lastRepairAt == before.lastRepairAt &&
            intent.nextRepairAt == before.nextRepairAt && intent.lastObserved == before.lastObserved
    ensures verdict == Repair <==>
              !(runtime.mode == before.desired && LocallyHealthy(before.desired, agent, now)) &&
              (before.pending || formalChanged || (before.driftAt.Some? && now - before.driftAt.value > DRIFT_GRACE)) &&
              agent.canApply && MayRetry(before.nextRepairAt, now)
    ensures verdict == Repair ==> intent == before
    ensures verdict == Settled && runtime.mode == before.desired && LocallyHealthy(before.desired, agent, now) ==>
              (intent.repair == WaitingOfficial && intent.waitingSince.Some? && intent.driftAt == None) ||
              (intent.repair == before.repair && intent.driftAt.Some? && now - intent.driftAt.value <= DRIFT_GRACE)
    ensures verdict == Settled && !(runtime.mode == before.desired && LocallyHealthy(before.desired, agent, now)) ==>
              intent.repair == before.repair || intent.repair == Degraded || intent.repair == DriftDetected
  {
    intent := before;
    if runtime.mode == intent.desired && LocallyHealthy(intent.desired, agent, now) {
      if intent.driftAt.None? && intent.repair != WaitingOfficial {
        intent := intent.(driftAt := Some(now));
      }
      if intent.pending || formalChanged || intent.repair == WaitingOfficial ||
         now - intent.driftAt.value > DRIFT_GRACE {
        intent := intent.(waitingSince := if intent.waitingSince.None? then Some(now) else intent.waitingSince,
                          repair := WaitingOfficial, lastError := "", driftAt := None);
      }
      return intent, Settled;
    }
    if !intent.pending && !formalChanged {
      if intent.driftAt.None? {
        intent := intent.(driftAt := Some(now));
      }
      if now - intent.driftAt.value <= DRIFT_GRACE {
        return intent, Settled;
      }
    }
    if !agent.canApply {
      return intent.(repair := Degraded, lastError := UPGRADE_REQUIRED), Settled;
    }
    if intent.nextRepairAt.Some? && now < intent.nextRepairAt.value {
      return intent.(repair := if intent.attempts >= 4 || Contains(intent.lastError, SESSION_REQUIRED) then Degraded
                               else DriftDetected), Settled;
    }
    return intent, Repair;
  }

  function Recover(intent: Intent): Intent {
    intent.(driftAt := None, pending := false, source := Formal, repair := Recovered, attempts := 0, lastError := "",
            nextRepairAt := None)
  }

  /** What one pass may do to attempts and pause. */
  ghost predicate Pace(before: Intent, after: Intent, reset: bool, tried: bool, issued: bool, now: int) {
    (!reset ==> after.attempts == before.attempts + (if tried then 1 else 0) &&
                after.nextRepairAt == if tried then Some(now + RepairDelay(after.attempts)) else before.nextRepairAt) &&
    (issued ==> MayRetry(after.nextRepairAt, now))
  }

  function RepairCommand(id: string, desired: string, now: int, key: string): Command {
    Command(id, APPLY, Mode(desired), now, now + COMMAND_TTL, key)
  }

  function KeyOf(identities: map<string, Identity>, server: string): string {
    if server in identities then identities[server].tokenHash else ""
  }

  /** The intent after a pass that came to its end. */
  ghost predicate PassDone(before: Intent, after: Intent, agent: Agent, runtime: Runtime, tried: bool, now: int) {
    var healthy := Healthy(DesiredAfter(before, runtime), agent, runtime, now);
    after.desired == DesiredAfter(before, runtime) &&
    after.pending == (before.pending && !healthy) &&
    after.lastObserved == (if FormalKnown(runtime) then runtime.mode else before.lastObserved) &&
    (healthy ==> after.repair == Recovered && after.attempts == 0 && after.nextRepairAt == None &&
                 after.driftAt == None) &&
    (!healthy ==> after.attempts == AttemptsAfter(before, runtime, tried) &&
                  after.nextRepairAt == NextAfter(before, runtime, tried, now))
  }

  /** The intent after a pass: of a healthy server it starts afresh, otherwise the attempts and the
      pause go on from the adopted or kept mode. */
  ghost predicate PassIs(before: Intent, after: Intent, agent: Agent, runtime: Runtime, tried: bool, now: int) {
    var known := runtime.mode == "embedded" || runtime.mode == "external";
    var wanted := Wanted(before, runtime);
    && after.desired == wanted && after.lastObserved == (if known then runtime.mode else before.lastObserved)
    && if runtime.mode == wanted && Runs(agent, wanted, now) && Reachable(runtime, now) then
         !after.pending && after.repair == Recovered && after.attempts == 0 && after.nextRepairAt == None &&
         after.driftAt == None
       else
         && after.pending == before.pending
         && after.attempts == (if wanted == before.desired then before.attempts else 0) + (if tried then 1 else 0)
         && if tried then
              after.nextRepairAt == Some(now +
                                         60 * match after.attempts case 1 => 1 case 2 => 5 case 3 => 15 case _ => 30)
            else after.nextRepairAt == if wanted == before.desired then before.nextRepairAt else None
  }

  lemma PassDoneMeans(before: Intent, after: Intent, agent: Agent, runtime: Runtime, tried: bool, now: int)
    ensures PassDone(before, after, agent, runtime, tried, now) <==> PassIs(before, after, agent, runtime, tried, now)
  {
  }

  /** What one pass makes of the intent, the command found in the queue, and what is to be done. */
  method Pass(before: Intent, queue: seq<Command>, agent: Agent, runtime: Runtime, result: Option<Result>, now: int)
    returns (intent: Intent, live: Option<Command>, verdict: Verdict)
    ensures var tried := result.Some? && result.value.action == "core.mode.apply";
            (verdict == Repair <==> CallsForRepair(before, queue, agent, runtime, tried, now)) &&
            PassIs(before, intent, agent, runtime, tried, now)
    ensures live.Some? <==> AnyLive(queue, now) && !(runtime.mode == intent.desired &&
                            Runs(agent, intent.desired, now) && Reachable(runtime, now))
    ensures live.Some? ==> live.value in queue && Live(live.value, now) && intent.repair == Repairing
    ensures intent.lastRepairAt == if result.Some? && result.value.action == "core.mode.apply"
                                     then result.value.completedAt else before.lastRepairAt
    ensures live.Some? && result.Some? && result.value.action == "core.mode.apply" ==>
              intent.lastError == if result.value.success then "" else result.value.message
    ensures runtime.mode == intent.desired && Runs(agent, intent.desired, now) && Reachable(runtime, now) ==>
              intent.source == Formal && intent.lastError == ""
  {
    intent, live, verdict := PassOver(before, queue, agent, runtime, result, now);
    RepairIsDueMeans(before, queue, agent, runtime, Tried(result), now);
    PassDoneMeans(before, intent, agent, runtime, Tried(result), now);
  }

  /** The intent with the observation and the result noted. */
  method Note(before: Intent, agent: Agent, runtime: Runtime, result: Option<Result>, now: int)
    returns (intent: Intent, formalChanged: bool)
    ensures formalChanged <==> FormallyChanged(before, runtime)
    ensures intent.desired == DesiredAfter(before, runtime) && intent.pending == before.pending
    ensures intent.attempts == AttemptsAfter(before, runtime, Tried(result)) &&
            intent.nextRepairAt == NextAfter(before, runtime, Tried(result), now)
    ensures intent.lastObserved == if FormalKnown(runtime) then runtime.mode else before.lastObserved
    ensures intent.driftAt == before.driftAt && intent.repair == before.repair
    ensures Tried(result) ==> intent.lastError == if result.value.success then "" else result.value.message
    ensures intent.lastRepairAt == if Tried(result) then result.value.completedAt else before.lastRepairAt
  {
    intent, formalChanged := Observe(before, agent, runtime, now);
    intent := NoteResult(intent, result, now);
  }

  method PassOver(before: Intent, queue: seq<Command>, agent: Agent, runtime: Runtime, result: Option<Result>, now: int)
    returns (intent: Intent, live: Option<Command>, verdict: Verdict)
    ensures verdict == Repair <==> RepairIsDue(before, queue, agent, runtime, Tried(result), now)
    ensures PassDone(before, intent, agent, runtime, Tried(result), now)
    ensures live.Some? <==> !Healthy(DesiredAfter(before, runtime), agent, runtime, now) && AnyLive(queue, now)
    ensures live.Some? ==> live.value in queue && Live(live.value, now) && intent.repair == Repairing
    ensures intent.lastRepairAt == if result.Some? && result.value.action == "core.mode.apply"
                                     then result.value.completedAt else before.lastRepairAt
    ensures live.Some? && result.Some? && result.value.action == "core.mode.apply" ==>
              intent.lastError == if result.value.success then "" else result.value.message
    ensures runtime.mode == intent.desired && Runs(agent, intent.desired, now) && Reachable(runtime, now) ==>
              intent.source == Formal && intent.lastError == ""
  {
    var formalChanged;
    live, verdict := None, Settled;
    intent, formalChanged := Note(before, agent, runtime, result, now);
    if Healthy(intent.desired, agent, runtime, now) {
      intent := Recover(intent);
      return;
    }
    live := FirstLive(queue, now);
    if live.Some? {
      intent := intent.(repair := Repairing);
      return;
    }
    intent, verdict := Judge(intent, agent, runtime, formalChanged, now);
  }

  /** The recorded mode was to be adopted, but a repair was due and no command could be made, for
      want of an identifier or of a signing key. */
  ghost predicate MissesAdoption(intent: Intent, queue: seq<Command>, agent: Agent, runtime: Runtime, tried: bool,
                                 now: int, id: Option<string>, key: string) {
    && !intent.pending && runtime.mode in {"embedded", "external"} && intent.desired != runtime.mode
    && CallsForRepair(intent, queue, agent, runtime, tried, now) && (id.None? || key == "")
  }

  lemma AppendedToOne(queues: map<string, seq<Command>>, server: string, c: Command)
    ensures var after := queues[server := QueueOf(queues, server) + [c]];
            forall k :: Stepped(QueueOf(queues, k), QueueOf(after, k), Issued(k == server, after, k))
  {
    var after := queues[server := QueueOf(queues, server) + [c]];
    forall k
      ensures Stepped(QueueOf(queues, k), QueueOf(after, k), Issued(k == server, after, k))
    {
      AppendingIsAStep(QueueOf(queues, server), c);
      StayingIsAStep(QueueOf(queues, k));
    }
  }

  /** The command at the end of a queue, if one was issued. */
  function Issued(issued: bool, queues: map<string, seq<Command>>, server: string): Option<Command> {
    var queue := QueueOf(queues, server);
    if issued && queue != [] then Some(queue[|queue| - 1]) else None
  }

  method Append(s: HelperState, server: string, c: Command)
    modifies s`queues
    ensures s.queues == old(s.queues)[server := QueueOf(old(s.queues), server) + [c]]
    ensures forall k :: Stepped(QueueOf(old(s.queues), k), QueueOf(s.queues, k), Issued(k == server, s.queues, k))
  {
    AppendedToOne(s.queues, server, c);
    s.queues := s.queues[server := QueueOf(s.queues, server) + [c]];
  }

  /** Keeps the intent, and queues the command if a repair is due and one can be made. */
  method Commit(s: HelperState, server: string, intent: Intent, live: Option<Command>, verdict: Verdict, now: int,
                id: Option<string>, saveOk: bool)
    returns (command: Option<Command>, issued: bool)
    modifies s`intents, s`queues
    ensures issued <==> verdict == Repair && id.Some? && server in s.identities && s.identities[server].tokenHash != ""
    ensures !issued ==> s.queues == old(s.queues)
    ensures issued ==>
              s.queues == old(s.queues)[server :=
                                          QueueOf(old(s.queues), server) +
                                          [Command(id.value, "core.mode.apply", Mode(intent.desired), now, now + 900,
                                                   s.identities[server].tokenHash)]]
    ensures verdict == Settled ==> s.intents == old(s.intents)[server := intent] && command == live
    ensures verdict == Repair ==>
              s.intents == if issued then old(s.intents)[server := intent.(repair := Repairing)] else old(s.intents)
    ensures verdict == Repair && command.Some? ==>
              command.value in QueueOf(s.queues, server) && Live(command.value, now)
    ensures forall k :: Stepped(QueueOf(old(s.queues), k), QueueOf(s.queues, k),
                                Issued(issued && k == server, s.queues, k))
  {
    NothingStepped(s.queues, s.queues);
    if verdict == Settled {
      s.intents := s.intents[server := intent];
      return live, false;
    }
    if id.None? || KeyOf(s.identities, server) == "" {
      return None, false;
    }
    var repair := RepairCommand(id.value, intent.desired, now, KeyOf(s.identities, server));
    Append(s, server, repair);
    s.intents := s.intents[server := intent.(repair := Repairing)];
    return if saveOk then Some(repair) else None, true;
  }

  /** One pass over the state.  `id` is the identifier drawn for a new command, if that succeeds;
      a command whose save fails stays queued in memory. */
  method Reconcile(s: HelperState, server: string, agent: Agent, runtime: Runtime, result: Option<Result>, now: int,
                   id: Option<string>, saveOk: bool)
    returns (command: Option<Command>, issued: bool)
    modifies s`intents, s`queues
    ensures server !in old(s.intents) ==> s.intents == old(s.intents) && command == None && !issued
    ensures issued <==> && server in old(s.intents) && id.Some?
                        && server in s.identities && s.identities[server].tokenHash != ""
                        && CallsForRepair(old(s.intents)[server], QueueOf(old(s.queues), server), agent, runtime,
                                          result.Some? && result.value.action == "core.mode.apply", now)
    ensures !issued ==> s.queues == old(s.queues)
    ensures server in old(s.intents) ==> server in s.intents && s.intents == old(s.intents)[server := s.intents[server]]
    ensures issued ==>
              s.queues == old(s.queues)[server :=
                                          QueueOf(old(s.queues), server) +
                                          [Command(id.value, "core.mode.apply", Mode(s.intents[server].desired), now,
                                                   now + 900, s.identities[server].tokenHash)]]
    ensures server in old(s.intents) ==>
              if CallsForRepair(old(s.intents)[server], QueueOf(old(s.queues), server), agent, runtime,
                                result.Some? && result.value.action == "core.mode.apply", now) && !issued
              then s.intents == old(s.intents)
              else PassIs(old(s.intents)[server], s.intents[server], agent, runtime,
                          result.Some? && result.value.action == "core.mode.apply", now)
    ensures server in old(s.intents) && FormalKnown(runtime) ==>
              (s.intents[server].pending || s.intents[server].desired == runtime.mode <==>
               !MissesAdoption(old(s.intents)[server], QueueOf(old(s.queues), server), agent, runtime, Tried(result),
                               now, id, KeyOf(s.identities, server)))
    ensures forall k :: Stepped(QueueOf(old(s.queues), k), QueueOf(s.queues, k),
                                Issued(issued && k == server, s.queues, k))
    ensures issued ==> !AnyLive(QueueOf(old(s.queues), server), now)
    ensures command.Some? ==> command.value in QueueOf(s.queues, server) && Live(command.value, now)
  {
    NothingStepped(s.queues, s.queues);
    if server !in s.intents {
      return None, false;
    }
    var queue := QueueOf(s.queues, server);
    var intent, live, verdict := Pass(s.intents[server], queue, agent, runtime, result, now);
    command, issued := Commit(s, server, intent, live, verdict, now, id, saveOk);
  }

  const SETTLED_INTENT :=
    Intent("external", false, Formal, "m", Recovered, None, 0, 0, "", None, "external", None, "", 0, false)

  /** The record has changed to embedded, the agent still runs the external core: the mode is to be
      adopted and a repair is due.  When no identifier can be drawn, the intent keeps the old mode
      with no change pending. */
  lemma AdoptionIsMissedWithoutAnIdentifier()
    ensures var agent := Agent(Some(0), "external", Ownership(true, true, true, true, true, true), true, "m");
            var runtime := Runtime(true, None, "embedded");
            MissesAdoption(SETTLED_INTENT, [], agent, runtime, false, 0, None, "key") &&
            !SETTLED_INTENT.pending && SETTLED_INTENT.desired != runtime.mode
  {
  }

  /** An administrator's request: a fresh intent that waits to be carried out.  It stays in memory
      even if the save fails. */
  method SetIntent(s: HelperState, server: string, mode: string, now: int, saveOk: bool) returns (r: Option<Intent>)
    modifies s`intents
    ensures r.Some? <==> mode in {"external", "embedded"} && server in s.identities && saveOk
    ensures mode in {"external", "embedded"} && server in s.identities ==>
              server in s.intents && s.intents == old(s.intents)[server := s.intents[server]] &&
              (r.Some? ==> r.value == s.intents[server]) &&
              var intent := s.intents[server];
              intent.desired == mode && intent.pending && intent.source == CustomExplicit && intent.attempts == 0 &&
              MayRetry(intent.nextRepairAt, now) &&
              intent.lastObserved == if server in old(s.intents) then old(s.intents)[server].lastObserved else ""
    ensures !(mode in {"external", "embedded"} && server in s.identities) ==> s.intents == old(s.intents)
  {
    if mode != "external" && mode != "embedded" {
      return None;
    }
    if server !in s.identities {
      return None;
    }
    var observed := if server in s.intents then s.intents[server].lastObserved else "";
    var intent := Intent(mode, true, CustomExplicit, s.identities[server].uuid, DriftDetected, None, 0, 0, "", None,
                         observed, None, "", 0, false);
    s.intents := s.intents[server := intent];
    return if saveOk then Some(intent) else None;
  }

  // ---------- one repair command at a time ----------

  lemma LiveShrinks(queue: seq<Command>, t: int, t': int)
    requires AtMostOneLive(queue, t) && t <= t'
    ensures AtMostOneLive(queue, t')
  {
    forall i, j | 0 <= i < j < |queue| ensures !(Live(queue[i], t') && Live(queue[j], t')) {
      assert !(Live(queue[i], t) && Live(queue[j], t));
    }
  }

  lemma FewerAreStillOne(before: seq<Command>, after: seq<Command>, now: int)
    requires AtMostOneLive(before, now) && Subsequence(Bodies(after), Bodies(before))
    ensures AtMostOneLive(after, now)
  {
    forall i, j | 0 <= i < j < |after| ensures !(Live(after[i], now) && Live(after[j], now)) {
      var p, q := SubsequenceKeepsOrder(Bodies(after), Bodies(before), i, j);
      assert !(Live(before[p], now) && Live(before[q], now));
    }
  }

  lemma OneMore(queue: seq<Command>, c: Command, now: int)
    requires AtMostOneLive(queue, now) && (!AnyLive(queue, now) || c.action != APPLY)
    ensures AtMostOneLive(queue + [c], now)
  {
    forall i, j | 0 <= i < j < |queue| + 1 ensures !(Live((queue + [c])[i], now) && Live((queue + [c])[j], now)) {
      assert (queue + [c])[i] == queue[i] && queue[i] in queue;
      if j < |queue| {
        assert (queue + [c])[j] == queue[j];
      }
    }
  }

  /** The contents of one queue over any number of steps, at times that do not go back, with the
      commands that were added; a repair only where none could still run. */
  ghost predicate QueueRun(run: seq<seq<Command>>, added: seq<Option<Command>>, times: seq<int>) {
    |run| == |added| + 1 == |times| &&
    forall k :: 0 <= k < |added| ==>
      times[k] <= times[k + 1] && Stepped(run[k], run[k + 1], added[k]) &&
      (added[k].Some? && added[k].value.action == APPLY ==> !AnyLive(run[k], times[k + 1]))
  }

  lemma StepKeepsOneLive(before: seq<Command>, after: seq<Command>, new': Option<Command>, now: int)
    requires AtMostOneLive(before, now) && Stepped(before, after, new')
    requires new'.Some? && new'.value.action == APPLY ==> !AnyLive(before, now)
    ensures AtMostOneLive(after, now)
  {
    if new' == None {
      FewerAreStillOne(before, after, now);
    } else {
      var init := after[..|after| - 1];
      FewerAreStillOne(before, init, now);
      assert after == init + [after[|after| - 1]];
      if !AnyLive(before, now) {
        NoneLiveInFewer(before, init, now);
      }
      OneMore(init, new'.value, now);
    }
  }

  lemma NoneLiveInFewer(before: seq<Command>, after: seq<Command>, now: int)
    requires !AnyLive(before, now) && Subsequence(Bodies(after), Bodies(before))
    ensures !AnyLive(after, now)
  {
    forall i | 0 <= i < |after|
      ensures !Live(after[i], now)
    {
      var p := SubsequenceMember(Bodies(after), Bodies(before), i);
      assert before[p] in before;
    }
  }

  /** As long as only the passes issue repair commands, at most one could run at any time. */
  lemma {:induction false} OneRepairAtATime(run: seq<seq<Command>>, added: seq<Option<Command>>, times: seq<int>,
                                            k: nat)
    requires QueueRun(run, added, times) && k < |run| && AtMostOneLive(run[0], times[0])
    ensures AtMostOneLive(run[k], times[k])
  {
    if k > 0 {
      OneRepairAtATime(run, added, times, k - 1);
      assert Stepped(run[k - 1], run[k - 1 + 1], added[k - 1]);
      LiveShrinks(run[k - 1], times[k - 1], times[k]);
      StepKeepsOneLive(run[k - 1], run[k], added[k - 1], times[k]);
    }
  }

  // ---------- pauses between repairs ----------

  /** One pass as far as pauses go; `reset` says that the server was found healthy or its
      recorded mode adopted (or the intent replaced). */
  datatype Record = Record(before: Intent, after: Intent, now: int, tried: bool, issued: bool, reset: bool)

  ghost predicate Paced(r: Record) {
    Pace(r.before, r.after, r.reset, r.tried, r.issued, r.now)
  }

  lemma PassIsPaced(before: Intent, after: Intent, queue: seq<Command>, agent: Agent, runtime: Runtime, tried: bool,
                    issued: bool, now: int)
    requires PassIs(before, after, agent, runtime, tried, now)
    requires issued ==> CallsForRepair(before, queue, agent, runtime, tried, now)
    ensures Pace(before, after, Healthy(DesiredAfter(before, runtime), agent, runtime, now) || Adopts(before, runtime),
                 tried, issued, now)
  {
    PassDoneMeans(before, after, agent, runtime, tried, now);
  }

  ghost predicate Passes(run: seq<Record>) {
    (forall k :: 0 <= k < |run| ==> Paced(run[k])) &&
    forall k :: 0 < k < |run| ==>
      run[k - 1].now <= run[k].now && run[k].before.attempts == run[k - 1].after.attempts &&
      run[k].before.nextRepairAt == run[k - 1].after.nextRepairAt
  }

  function Tries(run: seq<Record>): nat {
    if run == [] then 0 else Tries(run[..|run| - 1]) + if run[|run| - 1].tried then 1 else 0
  }

  ghost predicate NoReset(run: seq<Record>, i: nat, j: nat) {
    forall k :: i < k <= j && k < |run| ==> !run[k].reset
  }

  lemma {:induction false} AttemptsAreTries(run: seq<Record>, i: nat, k: nat)
    requires Passes(run) && i <= k < |run| && NoReset(run, i, k)
    ensures run[k].after.attempts == run[i].after.attempts + Tries(run[i + 1..k + 1])
    decreases k
  {
    if i < k {
      AttemptsAreTries(run, i, k - 1);
      assert Paced(run[k]);
      assert run[i + 1..k + 1][..k - i - 1] == run[i + 1..k];
    }
  }

  lemma {:induction false} PausesOnlyGrow(run: seq<Record>, m: nat, k: nat)
    requires Passes(run) && m <= k < |run| && run[m].tried && !run[m].reset && NoReset(run, m, k)
    ensures run[k].after.attempts >= run[m].after.attempts && run[k].now >= run[m].now
    ensures run[k].after.nextRepairAt.Some? &&
            run[k].after.nextRepairAt.value >= run[m].now + RepairDelay(run[m].after.attempts)
    decreases k
  {
    assert Paced(run[k]);
    if m < k {
      PausesOnlyGrow(run, m, k - 1);
    }
  }

  /** After the n-th result in a row that did not bring recovery, the next repair command is at
      least the n-th pause away: 1, 5, 15, 30, 30 minutes and so on. */
  lemma RepairsAreSpaced(run: seq<Record>, i: nat, m: nat, j: nat)
    requires Passes(run) && i < m <= j < |run| && NoReset(run, i, j)
    requires run[i].after.attempts == 0 && run[m].tried && run[j].issued
    ensures run[j].now >= run[m].now + RepairDelay(Tries(run[i + 1..m + 1]))
    ensures var n := Tries(run[i + 1..m + 1]);
            n > 0 && run[j].now >= run[m].now +
            60 * (if n == 1 then 1 else if n == 2 then 5 else if n == 3 then 15 else 30)
    ensures j > m
  {
    AttemptsAreTries(run, i, m);
    PausesOnlyGrow(run, m, j);
    assert Paced(run[j]) && Paced(run[m]);
  }
}
