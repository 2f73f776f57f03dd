/**
 Histories of the Authority: any sequence of operations, crashes and storage faults, under a clock
 that does not go back. The theorems here speak of every state and every pair of states of a history.
 */
module AuthorityHistory {
  import opened Options
  import opened AuthorityTables
  import opened AuthorityOperations
  import opened AuthorityInvariants
  import opened AuthoritySteps
  import opened AuthorityTimelineSteps
  import opened AuthorityRunSteps
  import opened AuthorityForkSteps
  import opened AuthorityRetentionSteps

  /**
   One atomic effect. Operations that write several statements or files outside a transaction
   (completeRun, recovery, worker loss) appear as several effects, so a history that stops between
   them is a crash. `PublishOnly` is a blob whose transaction never committed.
   */
  datatype Op =
    | CreateProjectOp(project: ProjectId, workspace: WorkspaceId)
    | CreateSessionOp(session: SessionId, inProject: Option<ProjectId>, inWorkspace: Option<WorkspaceId>,
                      added: Option<(WorkspaceId, ProjectId)>)
    | ForkOp(parent: SessionId, point: EntryId, toProject: Option<Option<ProjectId>>,
             toWorkspace: Option<Option<WorkspaceId>>, child: SessionId,
             parentCheckpoint: string, childCheckpoint: string)
    | CommandOp(envelope: Envelope, active: Option<nat>, fault: bool)
    | SleepOp(session: SessionId)
    | DropResidencyOp(session: SessionId)
    | ResetResidencyOp
    | SettleOp(run: RunId, outcome: RunState, text: string, checkpoint: Option<string>, fault: bool)
    | DispatchOp(session: SessionId)
    | HoldQueuedOp(session: SessionId)
    | ReleaseOp(run: RunId)
    | CancelWaitingOp(run: RunId)
    | ApplyEventOp(session: SessionId, run: RunId, event: TimelineEvent)
    | FinalizeAssistantOp(session: SessionId, run: RunId)
    | OpenInteractionOp(session: SessionId, run: RunId, generation: nat, correlation: nat, message: string)
    | ReserveInteractionOp(interaction: InteractionId, revision: nat)
    | SettleInteractionOp(interaction: InteractionId, from: InteractionState, to: InteractionState)
    | MaintainOp(done: Moves)
    | RotateEpochOp
    | RetainOp(blob: Blob)
    | PublishOnlyOp(blob: Blob)
    | StageEvidenceOp(run: RunId, text: string, evidenceCheckpoint: string)
    | RemoveEvidenceOp(run: RunId)

  /** A command's effect and answer, whatever its kind. */
  function Execute(w: World, env: Envelope, active: Option<nat>, fault: bool, now: Time): (World, Reply) {
    match env
    case SubmitEnvelope(_, _, _, _, _) => Submit(w, env, now)
    case SteerEnvelope(_, _, _, _, _, _, _) => Steer(w, env, active, now)
    case StopEnvelope(_, _, _, _, _) => Stop(w, env, active, now)
    case RenameEnvelope(_, _, _, _) => Rename(w, env, now)
    case AvailabilityEnvelope(_, _, _, _) => ChangeAvailability(w, env, now)
    case MarkReadEnvelope(_, _, _) => MarkRead(w, env, now, fault)
  }

  function Apply(w: World, op: Op, now: Time): World {
    match op
    case CreateProjectOp(project, workspace) => CreateProject(w, project, workspace, now)
    case CreateSessionOp(s, project, workspace, added) => CreateSession(w, s, project, workspace, added, now)
    case ForkOp(parent, point, project, workspace, child, from, to) =>
      Fork(w, parent, point, project, workspace, child, from, to, now)
    case CommandOp(env, active, fault) => Execute(w, env, active, fault, now).0
    case SleepOp(s) => Sleep(w, s, now)
    case DropResidencyOp(s) => DropResidency(w, s)
    case ResetResidencyOp => ResetResidency(w)
    case SettleOp(r, outcome, text, checkpoint, fault) =>
      if outcome.Terminal() then Settle(w, r, outcome, text, checkpoint, now, fault) else w
    case DispatchOp(s) => Dispatch(w, s)
    case HoldQueuedOp(s) => HoldQueued(w, s)
    case ReleaseOp(r) => Release(w, r)
    case CancelWaitingOp(r) => CancelWaiting(w, r)
    case ApplyEventOp(s, r, event) => ApplyEvent(w, s, r, event)
    case FinalizeAssistantOp(s, r) => FinalizeAssistant(w, s, r)
    case OpenInteractionOp(s, r, generation, correlation, message) =>
      OpenInteraction(w, s, r, generation, correlation, message, now)
    case ReserveInteractionOp(i, revision) => ReserveInteraction(w, i, revision)
    case SettleInteractionOp(i, from, to) => SettleInteraction(w, i, from, to)
    case MaintainOp(done) => Maintain(w, now, done)
    case RotateEpochOp => RotateEpoch(w, now)
    case RetainOp(b) => Retain(w, b)
    case PublishOnlyOp(b) => w.(disk := PublishBlob(w.disk, Some(b)))
    case StageEvidenceOp(r, text, checkpoint) => StageEvidence(w, r, text, checkpoint)
    case RemoveEvidenceOp(r) => RemoveEvidence(w, r)
  }

  /** The operations on Runs and on the live timeline. */
  predicate OnRuns(op: Op) {
    op.SettleOp? || op.DispatchOp? || op.HoldQueuedOp? || op.ReleaseOp? || op.CancelWaitingOp?
    || op.ApplyEventOp? || op.FinalizeAssistantOp?
    || op.OpenInteractionOp? || op.ReserveInteractionOp? || op.SettleInteractionOp?
  }

  lemma ApplyRunStep(w: World, op: Op, now: Time)
    requires Inv(w) && w.db.committedAt <= now && OnRuns(op)
    ensures Good(w, Apply(w, op, now))
  {
    hide Inv, Good;
    match op
    case SettleOp(r, outcome, text, checkpoint, fault) =>
      IdleStep(w);
      if outcome.Terminal() {
        SettleStep(w, r, outcome, text, checkpoint, now, fault);
      }
    case DispatchOp(s) => DispatchStep(w, s);
    case HoldQueuedOp(s) => HoldQueuedStep(w, s);
    case ReleaseOp(r) => ReleaseStep(w, r);
    case CancelWaitingOp(r) => CancelWaitingStep(w, r);
    case ApplyEventOp(s, r, event) => ApplyEventStep(w, s, r, event);
    case FinalizeAssistantOp(s, r) => FinalizeAssistantStep(w, s, r);
    case OpenInteractionOp(s, r, generation, correlation, message) =>
      OpenInteractionStep(w, s, r, generation, correlation, message, now);
    case ReserveInteractionOp(i, revision) => ReserveInteractionStep(w, i, revision);
    case SettleInteractionOp(i, from, to) => SettleInteractionStep(w, i, from, to);
  }

  /** Every operation keeps every invariant and is a step of the history. */
  lemma ApplyStep(w: World, op: Op, now: Time)
    requires Inv(w) && w.db.committedAt <= now
    ensures Good(w, Apply(w, op, now))
  {
    hide Inv, Good;
    if OnRuns(op) {
      hide Apply;
      ApplyRunStep(w, op, now);
    } else {
      ApplyOtherStep(w, op, now);
    }
  }

  lemma ApplyOtherStep(w: World, op: Op, now: Time)
    requires Inv(w) && w.db.committedAt <= now && !OnRuns(op)
    ensures Good(w, Apply(w, op, now))
  {
    hide Inv, Good;
    match op
    case CreateProjectOp(project, workspace) => CreateProjectStep(w, project, workspace, now);
    case CreateSessionOp(s, project, workspace, added) => CreateSessionStep(w, s, project, workspace, added, now);
    case ForkOp(parent, point, project, workspace, child, from, to) =>
      ForkStep(w, parent, point, project, workspace, child, from, to, now);
    case CommandOp(env, active, fault) => ExecuteStep(w, env, active, fault, now);
    case SleepOp(s) => SleepStep(w, s, now);
    case DropResidencyOp(s) => DropResidencyStep(w, s);
    case ResetResidencyOp => ResetResidencyStep(w);
    case MaintainOp(done) => MaintainStep(w, now, done);
    case RotateEpochOp => RotateEpochStep(w, now);
    case RetainOp(b) => RetainStep(w, b);
    case PublishOnlyOp(b) => PublishedBlobStep(w, Some(b));
    case StageEvidenceOp(r, text, checkpoint) => EvidenceStep(w, StageEvidence(w, r, text, checkpoint).disk.evidence);
    case RemoveEvidenceOp(r) => EvidenceStep(w, w.disk.evidence - {r});
  }

  lemma ExecuteStep(w: World, env: Envelope, active: Option<nat>, fault: bool, now: Time)
    requires Inv(w) && w.db.committedAt <= now
    ensures Good(w, Execute(w, env, active, fault, now).0)
  {
    hide Inv, Good;
    match env
    case SubmitEnvelope(_, _, _, _, _) => SubmitStep(w, env, now);
    case SteerEnvelope(_, _, _, _, _, _, _) => SteerStep(w, env, active, now);
    case StopEnvelope(_, _, _, _, _) => StopStep(w, env, active, now);
    case RenameEnvelope(_, _, _, _) => RenameStep(w, env, now);
    case AvailabilityEnvelope(_, _, _, _) => ChangeAvailabilityStep(w, env, now);
    case MarkReadEnvelope(_, _, _) => MarkReadStep(w, env, now, fault);
  }

  // ---------------------------------------------------------------- histories

  datatype Event = Event(op: Op, now: Time)

  /** States produced one after another by events whose clock does not go back. */
  ghost predicate History(states: seq<World>, events: seq<Event>) {
    && |states| == |events| + 1
    && Inv(states[0])
    && (forall k :: 0 <= k < |events| ==> states[k + 1] == Apply(states[k], events[k].op, events[k].now))
    && (forall k :: 0 <= k < |events| ==> states[0].db.committedAt <= events[k].now)
    && (forall j, k :: 0 <= j < k < |events| ==> events[j].now <= events[k].now)
  }

  /** The database a new data directory holds. */
  function Genesis(now: Time): World {
    World(Db(0, 1, now, {}, map[], map[], [], [], [], map[], [], map[], {}), Disk({}, {}, map[]))
  }

  lemma GenesisIsGood(now: Time)
    ensures Inv(Genesis(now))
  {}

  // ---------------------------------------------------------------- every state, every step

  /** The commit time is the clock of the last operation that committed one. */
  ghost predicate Clocked(a: World, b: World, now: Time) {
    b.db.committedAt == a.db.committedAt || b.db.committedAt == now
  }

  lemma SettlementClock(w: World, op: Op, now: Time)
    requires op.SettleOp? || op.OpenInteractionOp?
    ensures Clocked(w, Apply(w, op, now), now)
  {
    hide FacetOf, NextEntryOrder;
    if op.SettleOp? && op.outcome.Terminal() && !op.fault && Settleable(w.db, op.run) {
      assert SettleTransaction(w.db, op.run, op.outcome, op.text, op.checkpoint, now).committedAt == now;
    }
  }

  lemma SubmitClock(w: World, env: Envelope, now: Time)
    requires env.SubmitEnvelope?
    ensures Clocked(w, Submit(w, env, now).0, now)
  {
    hide NewEntry, NextRunOrder, SessionOccupied, Repeat;
  }

  lemma SteerClock(w: World, env: Envelope, active: Option<nat>, now: Time)
    requires env.SteerEnvelope?
    ensures Clocked(w, Steer(w, env, active, now).0, now)
  {
    hide NewEntry, TargetsActiveExecution, Repeat;
  }

  lemma StopClock(w: World, env: Envelope, active: Option<nat>, now: Time)
    requires env.StopEnvelope?
    ensures Clocked(w, Stop(w, env, active, now).0, now)
  {
    hide NewEntry, CancelWaitingRows, WithdrawRunInteractions, Repeat;
  }

  lemma MetadataClock(w: World, env: Envelope, fault: bool, now: Time)
    requires env.RenameEnvelope? || env.AvailabilityEnvelope? || env.MarkReadEnvelope?
    ensures Clocked(w, Execute(w, env, None, fault, now).0, now)
  {
    hide Submit, Steer, Stop, SessionHasActiveWork, SummaryOf, ReadStateOf, Repeat;
  }

  lemma CommandClock(w: World, env: Envelope, active: Option<nat>, fault: bool, now: Time)
    ensures Clocked(w, Execute(w, env, active, fault, now).0, now)
  {
    hide Clocked, Submit, Steer, Stop, Rename, ChangeAvailability, MarkRead;
    match env
    case SubmitEnvelope(_, _, _, _, _) => SubmitClock(w, env, now);
    case SteerEnvelope(_, _, _, _, _, _, _) => SteerClock(w, env, active, now);
    case StopEnvelope(_, _, _, _, _) => StopClock(w, env, active, now);
    case _ => MetadataClock(w, env, fault, now);
  }

  lemma TimelineClock(w: World, op: Op, now: Time)
    requires op.ApplyEventOp? || op.FinalizeAssistantOp?
    ensures Clocked(w, Apply(w, op, now), now)
  {}

  lemma ForkClock(w: World, op: Op, now: Time)
    requires op.ForkOp?
    ensures Clocked(w, Apply(w, op, now), now)
  {}

  lemma RunClock(w: World, op: Op, now: Time)
    requires OnRuns(op)
    ensures Clocked(w, Apply(w, op, now), now)
  {
    if op.SettleOp? || op.OpenInteractionOp? {
      SettlementClock(w, op, now);
      hide Apply;
    } else if op.ApplyEventOp? || op.FinalizeAssistantOp? {
      TimelineClock(w, op, now);
      hide Apply;
    }
  }

  lemma ApplyClock(w: World, op: Op, now: Time)
    ensures Clocked(w, Apply(w, op, now), now)
  {
    if OnRuns(op) {
      hide Apply, Clocked;
      RunClock(w, op, now);
    } else if op.CommandOp? {
      hide Clocked, Execute;
      CommandClock(w, op.envelope, op.active, op.fault, now);
    } else if op.ForkOp? {
      hide Clocked, Fork;
      ForkClock(w, op, now);
    } else {
      hide Execute, Fork, Settle, ApplyEvent, FinalizeAssistant, OpenInteraction;
    }
  }

  lemma {:induction false} HistoryKeeps(states: seq<World>, events: seq<Event>, k: nat)
    requires History(states, events) && k <= |events|
    ensures Inv(states[k])
    ensures k < |events| ==> states[k].db.committedAt <= events[k].now
    ensures k > 0 ==> Step(states[k - 1].db, states[k].db)
  {
    hide Inv, Step, Apply;
    if k > 0 {
      var event := events[k - 1];
      HistoryKeeps(states, events, k - 1);
      ApplyStep(states[k - 1], event.op, event.now);
      ApplyClock(states[k - 1], event.op, event.now);
    }
  }

  /** Every history is a trace: each state satisfies every invariant, and each pair is a step. */
  lemma HistoryIsTraced(states: seq<World>, events: seq<Event>)
    requires History(states, events)
    ensures Traced(states) && |states| == |events| + 1
  {
    hide Inv, Step, Apply;
    forall k | 0 <= k < |states|
      ensures Inv(states[k]) && (k > 0 ==> Step(states[k - 1].db, states[k].db))
    {
      HistoryKeeps(states, events, k);
    }
  }

  /** What is known of one event of a history. */
  lemma EventHolds(states: seq<World>, events: seq<Event>, k: nat)
    requires History(states, events) && k < |events|
    ensures |states| == |events| + 1 && Inv(states[k]) && states[k + 1] == Apply(states[k], events[k].op, events[k].now)
  {
    HistoryKeeps(states, events, k);
    hide Inv, Step, Apply;
  }
}
