/**
 What holds of every history: reopening, the Run lifecycle, read-state versions, and commands that
 take effect once.
 */
module AuthorityGuarantees {
  import opened Options
  import opened AuthorityTables
  import opened AuthorityOperations
  import opened AuthorityInvariants
  import opened AuthorityHistory
  import opened AuthorityOutcomes

  // ---------------------------------------------------------------- reopening

  /** The rows assertReadStateIntegrity selects; a database with one does not open. */
  predicate RefusedByIntegrityCheck(db: Db, s: SessionId)
    requires s in db.sessions
  {
    var row := db.sessions[s];
    || row.readRevision < 1
    || row.readThrough > row.timelineRevision
    || (row.milestone.Some? && row.milestone.value > row.timelineRevision)
    || (row.milestone.Some?
        && !exists i :: 0 <= i < |db.entries| && db.entries[i].session == s
                        && (db.entries[i].kind.InteractionEntry?
                            || (db.entries[i].run < |db.runs| && db.runs[db.entries[i].run].state.Terminal())))
  }

  /** Every database a history reaches passes the check its next opening makes. */
  lemma EveryReachableDatabaseReopens(states: seq<World>, events: seq<Event>, k: nat)
    requires History(states, events) && k <= |events|
    ensures !exists s :: s in states[k].db.sessions && RefusedByIntegrityCheck(states[k].db, s)
  {
    HistoryKeeps(states, events, k);
    hide History, Step, EntriesOk, RunsOk, SettlementsOk, BlobsOk;
    var db := states[k].db;
    forall s | s in db.sessions
      ensures !RefusedByIntegrityCheck(db, s)
    {
      if db.sessions[s].milestone.Some? {
        var i: EntryId :| Backs(db, s, i);
        assert 0 <= i < |db.entries|;
      }
    }
  }

  // ---------------------------------------------------------------- the Run lifecycle

  lemma RunsStayInLine(states: seq<World>, events: seq<Event>, k: nat)
    requires History(states, events) && k <= |events|
    ensures var db := states[k].db;
            forall i, j :: 0 <= i < |db.runs| && 0 <= j < |db.runs| && db.runs[i].session == db.runs[j].session
                           && db.runs[i].state.Executing?
              ==> && (db.runs[j].state.Executing? ==> i == j)
                  && (db.runs[j].state.Queued? ==> db.runs[i].order < db.runs[j].order)
    ensures var db := states[k].db;
            forall i :: 0 <= i < |db.runs| && db.runs[i].session in db.sessions
                        && db.sessions[db.runs[i].session].archived
              ==> db.runs[i].state.Terminal()
  {
    HistoryKeeps(states, events, k);
  }

  /** Runs that are new in `b` have not finished. */
  ghost predicate AddsUnfinished(a: World, b: World) {
    forall r :: |a.db.runs| <= r < |b.db.runs| ==> !b.db.runs[r].state.Terminal()
  }

  lemma RunCommandsAddUnfinished(w: World, env: Envelope, active: Option<nat>, now: Time)
    requires env.SubmitEnvelope? || env.SteerEnvelope? || env.StopEnvelope?
    ensures AddsUnfinished(w, Execute(w, env, active, false, now).0)
  {
    hide NewEntry, Rename, ChangeAvailability, MarkRead, NextRunOrder, SessionOccupied, WithdrawRunInteractions, Repeat;
  }

  lemma MetadataCommandsAddUnfinished(w: World, env: Envelope, fault: bool, now: Time)
    requires env.RenameEnvelope? || env.AvailabilityEnvelope? || env.MarkReadEnvelope?
    ensures AddsUnfinished(w, Execute(w, env, None, fault, now).0)
  {
    hide Submit, Steer, Stop, SummaryOf, ReadStateOf, SessionHasActiveWork, Repeat;
  }

  lemma CommandsAddUnfinished(w: World, env: Envelope, active: Option<nat>, fault: bool, now: Time)
    ensures AddsUnfinished(w, Execute(w, env, active, fault, now).0)
  {
    hide AddsUnfinished, Submit, Steer, Stop, Rename, ChangeAvailability, MarkRead;
    if env.SubmitEnvelope? || env.SteerEnvelope? || env.StopEnvelope? {
      RunCommandsAddUnfinished(w, env, active, now);
    } else {
      MetadataCommandsAddUnfinished(w, env, fault, now);
    }
  }

  lemma RunOperationsAddUnfinished(w: World, op: Op, now: Time)
    requires OnRuns(op)
    ensures AddsUnfinished(w, Apply(w, op, now))
  {
    hide NewEntry, ReadStateOf, FindOpenAssistant, FindOpenTool, FirstQueued, SessionIsExecuting, WaitsBehind;
    hide Execute, Fork, Maintain, ResetResidency;
  }

  /** Only forks add finished Runs. */
  lemma OnlyForksAddFinished(w: World, op: Op, now: Time)
    requires !op.ForkOp?
    ensures AddsUnfinished(w, Apply(w, op, now))
  {
    if op.CommandOp? {
      CommandsAddUnfinished(w, op.envelope, op.active, op.fault, now);
      hide Execute;
    } else if OnRuns(op) {
      RunOperationsAddUnfinished(w, op, now);
      hide Apply;
    } else {
      hide Execute, Settle, ApplyEvent, FinalizeAssistant, OpenInteraction, Fork, SummaryOf;
    }
  }

  /** The Run entered the table as a fork's copy. */
  ghost predicate CopiedByFork(states: seq<World>, events: seq<Event>, k: nat, r: RunId) {
    exists j :: 0 <= j < k <= |events| && |states| == |events| + 1 && events[j].op.ForkOp?
                && |states[j].db.runs| <= r < |states[j + 1].db.runs|
  }

  ghost predicate SettledOnce(db: Db, r: RunId) {
    r < |db.runs| && SettlementFits(db.runs[r].state, SettlementCount(db.entries, r))
  }

  lemma SettledOnceStays(states: seq<World>, k: nat, r: RunId)
    requires Traced(states) && 0 < k < |states| && SettledOnce(states[k - 1].db, r)
    ensures SettledOnce(states[k].db, r)
  {
    TracedKeeps(states, k);
    hide Traced, Inv, LogStep, TimelineStep, EntryStep, ReadStep, ReceiptStep, SettlementFits;
  }

  lemma UnfinishedIsSettledOnce(w: World, r: RunId)
    requires Inv(w) && r < |w.db.runs| && !w.db.runs[r].state.Terminal()
    ensures SettledOnce(w.db, r)
  {}

  lemma {:induction false} UncopiedAlongTrace(states: seq<World>, events: seq<Event>, k: nat, r: RunId)
    requires History(states, events) && Traced(states) && k <= |events| && r < |states[k].db.runs|
    requires states[0].db.runs == [] && !CopiedByFork(states, events, k, r)
    ensures SettledOnce(states[k].db, r)
  {
    assert k > 0;
    var event := events[k - 1];
    assert states[k] == Apply(states[k - 1], event.op, event.now);
    hide Apply, Inv, Step;
    if r < |states[k - 1].db.runs| {
      assert !CopiedByFork(states, events, k - 1, r);
      UncopiedAlongTrace(states, events, k - 1, r);
      SettledOnceStays(states, k, r);
    } else {
      assert !event.op.ForkOp?;
      OnlyForksAddFinished(states[k - 1], event.op, event.now);
      UnfinishedIsSettledOnce(states[k], r);
    }
  }

  /**
   In every history of a new database, a Run that no fork copied, whatever its Session, has exactly one
   response or outcome entry once it is completed, failed or interrupted, at most one if it was cancelled,
   and none until it has finished.
   */
  lemma RunsSettleOnce(states: seq<World>, events: seq<Event>, k: nat, r: RunId)
    requires History(states, events) && k <= |events| && r < |states[k].db.runs|
    requires states[0].db.runs == [] && !CopiedByFork(states, events, k, r)
    ensures var state, count := states[k].db.runs[r].state, SettlementCount(states[k].db.entries, r);
            && (state.Completed? || state.Failed? || state.Interrupted? ==> count == 1)
            && (state.Cancelled? ==> count <= 1)
            && (!state.Terminal() ==> count == 0)
  {
    HistoryIsTraced(states, events);
    UncopiedAlongTrace(states, events, k, r);
    hide History, Traced, CopiedByFork;
  }

  /** A Run that is unfinished has no settlement entry, and one of a created Session has what its state says. */
  lemma RunsOfCreatedSessionsSettleOnce(states: seq<World>, events: seq<Event>, k: nat, r: RunId)
    requires History(states, events) && k <= |events| && r < |states[k].db.runs|
    requires !states[k].db.runs[r].state.Terminal()
             || (states[k].db.runs[r].session in states[k].db.sessions
                 && states[k].db.sessions[states[k].db.runs[r].session].parent.None?)
    ensures SettledOnce(states[k].db, r)
  {
    HistoryKeeps(states, events, k);
    hide History, Step, EntriesOk, RunsOk, BlobsOk, Reopens;
  }

  lemma {:induction false} RunsStayAlongTrace(states: seq<World>, i: nat, n: nat, r: RunId)
    requires Traced(states) && i <= n < |states| && r < |states[i].db.runs|
    ensures r < |states[n].db.runs| && states[n].db.runs[r].session == states[i].db.runs[r].session
    ensures states[i].db.runs[r].state.Terminal() ==> states[n].db.runs[r].state == states[i].db.runs[r].state
    decreases n - i
  {
    if i < n {
      RunsStayAlongTrace(states, i, n - 1, r);
      TracedKeeps(states, n);
    }
  }

  lemma TerminalRunsStay(states: seq<World>, events: seq<Event>, i: nat, n: nat, r: RunId)
    requires History(states, events) && i <= n <= |events| && r < |states[i].db.runs|
    ensures r < |states[n].db.runs| && states[n].db.runs[r].session == states[i].db.runs[r].session
    ensures states[i].db.runs[r].state.Terminal() ==> states[n].db.runs[r].state == states[i].db.runs[r].state
  {
    HistoryIsTraced(states, events);
    RunsStayAlongTrace(states, i, n, r);
  }

  /** In a created Session the timeline revision is one more than the sum of the entry revisions. */
  lemma TimelineRevisionIsSum(states: seq<World>, events: seq<Event>, k: nat, s: SessionId)
    requires History(states, events) && k <= |events|
    requires s in states[k].db.sessions && states[k].db.sessions[s].parent.None?
    ensures states[k].db.sessions[s].timelineRevision == 1 + RevisionSum(states[k].db.entries, s)
  {
    HistoryKeeps(states, events, k);
  }

  // ---------------------------------------------------------------- read-state versions

  lemma {:induction false} ReadStatesAlongTrace(states: seq<World>, i: nat, n: nat, s: SessionId)
    requires Traced(states) && i <= n < |states| && s in states[i].db.sessions
    ensures s in states[n].db.sessions
    ensures var before, after := ReadStateOf(states[i].db.sessions[s]), ReadStateOf(states[n].db.sessions[s]);
            before.revision <= after.revision && (before.revision == after.revision ==> before == after)
    decreases n - i
  {
    if i < n {
      ReadStatesAlongTrace(states, i, n - 1, s);
      ReadStateSteps(states, n, s);
      hide Traced, ReadStateOf;
    }
  }

  lemma ReadStateSteps(states: seq<World>, n: nat, s: SessionId)
    requires Traced(states) && 0 < n < |states| && s in states[n - 1].db.sessions
    ensures s in states[n].db.sessions
    ensures var before, after := ReadStateOf(states[n - 1].db.sessions[s]), ReadStateOf(states[n].db.sessions[s]);
            before.revision <= after.revision && (before.revision == after.revision ==> before == after)
  {
    TracedKeeps(states, n);
    hide Traced, Inv, LogStep, TimelineStep, RunStep, EntryStep, ReceiptStep, ReadStateOf;
    ReadStateCarriesRevision(states[n - 1].db.sessions[s]);
    ReadStateCarriesRevision(states[n].db.sessions[s]);
  }

  /**
   The read-state revision is a faithful version: it never decreases, and two states of a Session
   with the same revision have the same read state.
   */
  lemma ReadStateRevisionIsFaithful(states: seq<World>, events: seq<Event>, i: nat, n: nat, s: SessionId)
    requires History(states, events) && i <= n <= |events| && s in states[i].db.sessions
    ensures s in states[n].db.sessions
    ensures var before, after := ReadStateOf(states[i].db.sessions[s]), ReadStateOf(states[n].db.sessions[s]);
            before.revision <= after.revision && (before.revision == after.revision ==> before == after)
  {
    HistoryIsTraced(states, events);
    ReadStatesAlongTrace(states, i, n, s);
  }

  lemma ReadStateCarriesRevision(row: Session)
    ensures ReadStateOf(row).revision == row.readRevision
  {}

  // ---------------------------------------------------------------- commands

  lemma {:induction false} ReceiptsStay(states: seq<World>, i: nat, n: nat, c: CommandId)
    requires Traced(states) && i <= n < |states| && c in states[i].db.receipts
    ensures c in states[n].db.receipts && states[n].db.receipts[c] == states[i].db.receipts[c]
    decreases n - i
  {
    if i < n {
      ReceiptsStay(states, i, n - 1, c);
      TracedKeeps(states, n);
      hide Traced, Inv, LogStep, TimelineStep, RunStep, EntryStep, ReadStep;
    }
  }

  /** A command whose identity has a receipt is answered from it and changes nothing. */
  lemma ReceivedCommandRepeats(w: World, env: Envelope, active: Option<nat>, fault: bool, now: Time)
    requires Received(w.db, env)
    ensures Execute(w, env, active, fault, now) == (w, Repeat(w.db, env))
  {}

  /** What filing an outcome leaves. */
  predicate Files(w: World, env: Envelope, after: (World, Reply)) {
    after.1.Fresh? && (after.1.outcome.Accepted? || Received(after.0.db, env))
    ==> !Received(w.db, env) && Received(after.0.db, env)
        && after.0.db.receipts[env.commandId] == Receipt(env, after.1.outcome)
  }

  lemma RunCommandIsFiled(w: World, env: Envelope, active: Option<nat>, now: Time)
    requires env.SubmitEnvelope? || env.SteerEnvelope? || env.StopEnvelope?
    ensures Files(w, env, Execute(w, env, active, false, now))
  {
    hide AddEntry, NewEntry, PutSession, Bump, TargetsActiveExecution;
    hide Rename, ChangeAvailability, MarkRead, NextRunOrder, SessionOccupied, CancelWaitingRows, WithdrawRunInteractions;
  }

  lemma MetadataCommandIsFiled(w: World, env: Envelope, fault: bool, now: Time)
    requires env.RenameEnvelope? || env.AvailabilityEnvelope? || env.MarkReadEnvelope?
    ensures Files(w, env, Execute(w, env, None, fault, now))
  {
    hide Submit, Steer, Stop, PutSession, Bump, Record, SummaryOf, ReadStateOf, SessionHasActiveWork;
  }

  /** An outcome that is filed is filed under the envelope it answers. */
  lemma FreshCommandIsFiled(w: World, env: Envelope, active: Option<nat>, fault: bool, now: Time)
    ensures Files(w, env, Execute(w, env, active, fault, now))
  {
    hide Files, Submit, Steer, Stop, Rename, ChangeAvailability, MarkRead;
    if env.SubmitEnvelope? || env.SteerEnvelope? || env.StopEnvelope? {
      RunCommandIsFiled(w, env, active, now);
    } else {
      MetadataCommandIsFiled(w, env, fault, now);
    }
  }

  /** The effect and answer of the command that is the k-th event. */
  function AnswerAt(states: seq<World>, events: seq<Event>, k: nat): (World, Reply)
    requires k < |events| && k < |states| && events[k].op.CommandOp?
  {
    Execute(states[k], events[k].op.envelope, events[k].op.active, events[k].op.fault, events[k].now)
  }

  /**
   A command takes effect at most once. Once a command is accepted, or refused with a receipt, any
   command with the same identity leaves the world as it was; it is answered with the recorded
   outcome if its envelope is the same and refused if it is not.
   */
  lemma CommandsTakeEffectOnce(states: seq<World>, events: seq<Event>, i: nat, n: nat)
    requires History(states, events) && i < n < |events|
    requires events[i].op.CommandOp? && events[n].op.CommandOp?
    requires events[i].op.envelope.commandId == events[n].op.envelope.commandId
    requires var (after, reply) := AnswerAt(states, events, i);
             reply.Fresh? && (reply.outcome.Accepted? || Received(after.db, events[i].op.envelope))
    ensures AnswerAt(states, events, n)
         == (states[n], if events[n].op.envelope == events[i].op.envelope
                        then Replayed(AnswerAt(states, events, i).1.outcome) else Conflict)
    ensures states[n + 1] == states[n]
  {
    hide Execute;
    var a, b := events[i].op, events[n].op;
    FreshCommandIsFiled(states[i], a.envelope, a.active, a.fault, events[i].now);
    assert states[i + 1] == Apply(states[i], a, events[i].now);
    assert states[n + 1] == Apply(states[n], b, events[n].now);
    HistoryIsTraced(states, events);
    ReceiptsStay(states, i + 1, n, a.envelope.commandId);
    ReceivedCommandRepeats(states[n], b.envelope, b.active, b.fault, events[n].now);
  }

  // ---------------------------------------------------------------- what a stop settles for good

  /** The k-th event is an accepted stop in a Session. */
  ghost predicate StopsSession(states: seq<World>, events: seq<Event>, k: nat, s: SessionId) {
    && k < |events| && k < |states| && events[k].op.CommandOp?
    && events[k].op.envelope.StopEnvelope? && events[k].op.envelope.session == s
    && AnswerAt(states, events, k).1.Fresh? && AnswerAt(states, events, k).1.outcome.Accepted?
  }

  /** A Run that waited when its Session was stopped is cancelled from then on, and never executes. */
  lemma StoppedRunsNeverExecute(states: seq<World>, events: seq<Event>, i: nat, n: nat, q: RunId)
    requires History(states, events) && i < n <= |events| && q < |states[i].db.runs|
    requires StopsSession(states, events, i, states[i].db.runs[q].session)
    requires states[i].db.runs[q].state.Queued? || states[i].db.runs[q].state.Held?
    ensures q < |states[n].db.runs| && states[n].db.runs[q].state.Cancelled?
  {
    var op := events[i].op;
    EventHolds(states, events, i);
    hide Inv, History, Stop, Gains, OnlySession, SameCatalog;
    FreshIsUnreceived(states[i], op.envelope, op.active, op.fault, events[i].now);
    StopMeets(states[i], op.envelope, op.active, events[i].now);
    assert states[i + 1].db.runs[q].state.Cancelled?;
    TerminalRunsStay(states, events, i + 1, n, q);
  }

  lemma FreshIsUnreceived(w: World, env: Envelope, active: Option<nat>, fault: bool, now: Time)
    requires Execute(w, env, active, fault, now).1.Fresh?
    ensures env.commandId !in w.db.receipts
  {
    if Received(w.db, env) {
      ReceivedCommandRepeats(w, env, active, fault, now);
      hide Execute;
    }
  }

  // ---------------------------------------------------------------- unread until marked

  /** Read positions move by marking only, and milestones do not go back. */
  ghost predicate ReadsByMarking(a: Db, b: Db, s: SessionId, marked: Option<int>) {
    && s in a.sessions && s in b.sessions
    && var was, row := a.sessions[s], b.sessions[s];
       && (row.readThrough == was.readThrough || (marked.Some? && row.readThrough == marked.value))
       && (was.milestone.Some? ==> row.milestone.Some? && row.milestone.value >= was.milestone.value)
  }

  function Marked(w: World, op: Op, now: Time, s: SessionId): Option<int> {
    if op.CommandOp? && op.envelope.MarkReadEnvelope? && op.envelope.session == s
       && Execute(w, op.envelope, op.active, op.fault, now).1.Fresh?
       && Execute(w, op.envelope, op.active, op.fault, now).1.outcome.Accepted?
    then Some(op.envelope.presented) else None
  }

  lemma SubmitKeepsReading(w: World, env: Envelope, now: Time, s: SessionId)
    requires s in w.db.sessions && env.SubmitEnvelope?
    ensures ReadsByMarking(w.db, Submit(w, env, now).0.db, s, None)
  {
    hide NewEntry, NextRunOrder, SessionOccupied, Repeat;
  }

  lemma SteerKeepsReading(w: World, env: Envelope, active: Option<nat>, now: Time, s: SessionId)
    requires s in w.db.sessions && env.SteerEnvelope?
    ensures ReadsByMarking(w.db, Steer(w, env, active, now).0.db, s, None)
  {
    hide NewEntry, Repeat;
  }

  lemma StopKeepsReading(w: World, env: Envelope, active: Option<nat>, now: Time, s: SessionId)
    requires s in w.db.sessions && env.StopEnvelope?
    ensures ReadsByMarking(w.db, Stop(w, env, active, now).0.db, s, None)
  {
    hide NewEntry, WithdrawRunInteractions, CancelWaitingRows, Repeat;
  }

  lemma MetadataKeepsReading(w: World, op: Op, now: Time, s: SessionId)
    requires s in w.db.sessions && op.CommandOp?
    requires op.envelope.RenameEnvelope? || op.envelope.AvailabilityEnvelope? || op.envelope.MarkReadEnvelope?
    ensures ReadsByMarking(w.db, Execute(w, op.envelope, op.active, op.fault, now).0.db, s, Marked(w, op, now, s))
  {
    hide Submit, Steer, Stop, SummaryOf, SessionHasActiveWork, Repeat;
  }

  lemma RowsKeepReading(db: Db, s: SessionId)
    requires s in db.sessions
    ensures ReadsByMarking(db, db, s, None)
  {}

  lemma AddedKeepsReading(db: Db, t: SessionId, s: SessionId)
    requires s in db.sessions && t in db.sessions
    ensures forall r, kind, text, checkpoint, blob, finalized, tool ::
              ReadsByMarking(db, AddEntry(db, NewEntry(db, t, r, kind, text, checkpoint, blob, finalized, tool)), s, None)
  {
    hide NextEntryOrder;
  }

  lemma RevisedKeepsReading(db: Db, i: nat, s: SessionId)
    requires s in db.sessions && i < |db.entries| && db.entries[i].session in db.sessions
    ensures forall text, finalized :: ReadsByMarking(db, ReviseEntry(db, i, text, finalized), s, None)
  {}

  lemma TimelinesKeepReading(w: World, op: Op, now: Time, s: SessionId)
    requires (op.ApplyEventOp? || op.FinalizeAssistantOp?) && s in w.db.sessions
    ensures ReadsByMarking(w.db, Apply(w, op, now).db, s, None)
  {
    var db, t := w.db, op.session;
    RowsKeepReading(db, s);
    hide NewEntry, FindOpenAssistant, FindOpenTool, AddEntry, ReviseEntry, ReadsByMarking;
    if t in db.sessions {
      var assistant := FindOpenAssistant(db.entries, t, op.run);
      if assistant.Some? {
        RevisedKeepsReading(db, assistant.value, s);
      }
      AddedKeepsReading(db, t, s);
      if op.ApplyEventOp? && op.event.ToolCompleted? {
        var tool := FindOpenTool(db.entries, t, op.run, op.event.toolCall);
        if tool.Some? {
          RevisedKeepsReading(db, tool.value, s);
        }
      }
    }
  }

  lemma RunsKeepReading(w: World, op: Op, now: Time, s: SessionId)
    requires OnRuns(op) && !op.SettleOp? && !op.OpenInteractionOp? && s in w.db.sessions
    ensures ReadsByMarking(w.db, Apply(w, op, now).db, s, None)
  {
    if op.ApplyEventOp? || op.FinalizeAssistantOp? {
      TimelinesKeepReading(w, op, now, s);
      hide Apply;
    }
    hide ApplyEvent, FinalizeAssistant, FirstQueued, SessionIsExecuting, WaitsBehind, Settle, OpenInteraction;
    hide HoldQueuedRows, ReleaseHeldRows;
  }

  lemma MilestonesAreInTimelines(w: World)
    requires Inv(w)
    ensures forall t :: t in w.db.sessions && w.db.sessions[t].milestone.Some? ==> w.db.sessions[t].milestone.value <= w.db.sessions[t].timelineRevision
  {}

  /** A Session that becomes unread keeps its read position and has a later milestone. */
  lemma UnreadKeepsReading(a: Db, b: Db, t: SessionId, now: Time, s: SessionId)
    requires OnlySession(a, b, t) && BecomesUnread(a, b, t, now) && s in a.sessions
    requires b.sessions[t].timelineRevision == a.sessions[t].timelineRevision + 1
    requires a.sessions[t].milestone.Some? ==> a.sessions[t].milestone.value <= a.sessions[t].timelineRevision
    ensures ReadsByMarking(a, b, s, None)
  {}

  lemma MilestonesKeepReading(w: World, op: Op, now: Time, s: SessionId)
    requires Inv(w) && s in w.db.sessions && (op.SettleOp? || op.OpenInteractionOp?)
    ensures ReadsByMarking(w.db, Apply(w, op, now).db, s, None)
  {
    MilestonesAreInTimelines(w);
    hide Inv, Settle, OpenInteraction, BecomesUnread, OnlySession, MayAsk;
    var b := Apply(w, op, now).db;
    if op.SettleOp? {
      SettlementMeets(w, op.run, op.outcome, op.text, op.checkpoint, now, op.fault);
      if b != w.db {
        UnreadKeepsReading(w.db, b, w.db.runs[op.run].session, now, s);
      }
    } else {
      AskingMeets(w, op.session, op.run, op.generation, op.correlation, op.message, now);
      if b != w.db {
        UnreadKeepsReading(w.db, b, op.session, now, s);
      }
    }
  }

  /** No operation but an accepted mark-read moves a read position, and none takes a milestone back. */
  lemma OnlyMarkingReads(w: World, op: Op, now: Time, s: SessionId)
    requires Inv(w) && s in w.db.sessions
    ensures ReadsByMarking(w.db, Apply(w, op, now).db, s, Marked(w, op, now, s))
  {
    hide Inv;
    if op.CommandOp? {
      hide Execute, ReadsByMarking;
      if op.envelope.SubmitEnvelope? || op.envelope.SteerEnvelope? || op.envelope.StopEnvelope? {
        RunCommandKeepsReading(w, op, now, s);
      } else {
        MetadataKeepsReading(w, op, now, s);
      }
    } else if op.SettleOp? || op.OpenInteractionOp? {
      MilestonesKeepReading(w, op, now, s);
      hide Apply, ReadsByMarking;
    } else if OnRuns(op) {
      RunsKeepReading(w, op, now, s);
      hide Apply, ReadsByMarking;
    } else {
      OthersKeepReading(w, op, now, s);
      hide Apply, ReadsByMarking;
    }
  }

  lemma OthersKeepReading(w: World, op: Op, now: Time, s: SessionId)
    requires s in w.db.sessions && !op.CommandOp? && !OnRuns(op)
    ensures ReadsByMarking(w.db, Apply(w, op, now).db, s, None)
  {
    if !op.ForkOp? {
      hide Fork, Execute, Settle, ApplyEvent, FinalizeAssistant, OpenInteraction, SummaryOf, ReadStateOf;
    } else {
      hide Execute, Settle, ApplyEvent, FinalizeAssistant, OpenInteraction, UpTo, Timeline, ChildRuns, ChildEntries, CopiedRuns;
      hide Copyable, LastMilestone, SummaryOf, ReadStateOf;
    }
  }

  lemma RunCommandKeepsReading(w: World, op: Op, now: Time, s: SessionId)
    requires s in w.db.sessions && op.CommandOp?
    requires op.envelope.SubmitEnvelope? || op.envelope.SteerEnvelope? || op.envelope.StopEnvelope?
    ensures ReadsByMarking(w.db, Execute(w, op.envelope, op.active, op.fault, now).0.db, s, Marked(w, op, now, s))
  {
    if op.envelope.SubmitEnvelope? {
      SubmitKeepsReading(w, op.envelope, now, s);
    } else if op.envelope.SteerEnvelope? {
      SteerKeepsReading(w, op.envelope, op.active, now, s);
    } else {
      StopKeepsReading(w, op.envelope, op.active, now, s);
    }
    hide Submit, Steer, Stop, Rename, ChangeAvailability, MarkRead;
  }

  /** The k-th event marks a Session read through at least this revision. */
  ghost predicate MarksThrough(states: seq<World>, events: seq<Event>, k: nat, s: SessionId, revision: nat) {
    && k < |events| && k < |states| && events[k].op.CommandOp? && events[k].op.envelope.MarkReadEnvelope?
    && events[k].op.envelope.session == s && events[k].op.envelope.presented >= revision
    && AnswerAt(states, events, k).1.Fresh? && AnswerAt(states, events, k).1.outcome.Accepted?
  }

  lemma MarkedThrough(states: seq<World>, events: seq<Event>, k: nat, s: SessionId, revision: nat)
    requires k < |events| && k < |states|
    requires Marked(states[k], events[k].op, events[k].now, s).Some?
             && Marked(states[k], events[k].op, events[k].now, s).value >= revision
    ensures MarksThrough(states, events, k, s, revision)
  {
    hide Execute;
  }

  /** Some event from i on, before n, marks it so. */
  ghost predicate MarkedBetween(states: seq<World>, events: seq<Event>, i: nat, n: nat, s: SessionId, revision: nat) {
    exists k: nat :: i <= k < n && MarksThrough(states, events, k, s, revision)
  }

  /** One event keeps an unread Session unread, or marks it read through its milestone. */
  lemma UnreadStep(states: seq<World>, events: seq<Event>, k: nat, s: SessionId, m: nat)
    requires History(states, events) && k < |events| && s in states[k].db.sessions
    requires states[k].db.sessions[s].milestone.Some? && states[k].db.sessions[s].milestone.value >= m
    ensures |states| == |events| + 1 && s in states[k + 1].db.sessions
    ensures states[k + 1].db.sessions[s].milestone.Some? && states[k + 1].db.sessions[s].milestone.value >= m
    ensures ReadStateOf(states[k].db.sessions[s]).unread ==>
              ReadStateOf(states[k + 1].db.sessions[s]).unread || MarksThrough(states, events, k, s, m)
  {
    EventHolds(states, events, k);
    hide History, Inv, Apply, MarksThrough, Marked;
    OnlyMarkingReads(states[k], events[k].op, events[k].now, s);
    if ReadStateOf(states[k].db.sessions[s]).unread && !ReadStateOf(states[k + 1].db.sessions[s]).unread {
      MarkedThrough(states, events, k, s, m);
    }
  }

  lemma MarkedLater(states: seq<World>, events: seq<Event>, i: nat, n: nat, s: SessionId, m: nat)
    requires MarkedBetween(states, events, i, n, s, m) || (i <= n && MarksThrough(states, events, n, s, m))
    ensures MarkedBetween(states, events, i, n + 1, s, m)
  {
    hide MarksThrough;
    if MarkedBetween(states, events, i, n, s, m) {
      var k: nat :| i <= k < n && MarksThrough(states, events, k, s, m);
      assert i <= k < n + 1;
    }
  }

  /**
   An unread Session stays unread, with a milestone that does not go back, until an accepted mark-read that
   presents at least that milestone.
   */
  lemma {:induction false} UnreadUntilMarked(states: seq<World>, events: seq<Event>, i: nat, n: nat, s: SessionId)
    requires History(states, events) && i <= n <= |events| && s in states[i].db.sessions
    requires ReadStateOf(states[i].db.sessions[s]).unread
    ensures s in states[n].db.sessions && states[n].db.sessions[s].milestone.Some?
            && states[n].db.sessions[s].milestone.value >= states[i].db.sessions[s].milestone.value
    ensures ReadStateOf(states[n].db.sessions[s]).unread
            || MarkedBetween(states, events, i, n, s, states[i].db.sessions[s].milestone.value)
    decreases n - i
  {
    hide Apply, Inv;
    if i < n {
      var m := states[i].db.sessions[s].milestone.value;
      UnreadUntilMarked(states, events, i, n - 1, s);
      UnreadStep(states, events, n - 1, s, m);
      hide History, MarksThrough, MarkedBetween;
      if MarksThrough(states, events, n - 1, s, m) || MarkedBetween(states, events, i, n - 1, s, m) {
        MarkedLater(states, events, i, n - 1, s, m);
      }
    }
  }

  /**
   A settlement makes its Session unread at its new timeline revision, and it stays so until an accepted
   mark-read that presents at least that revision.
   */
  lemma SettledSessionStaysUnread(states: seq<World>, events: seq<Event>, i: nat, n: nat, r: RunId)
    requires History(states, events) && i < n <= |events| && Unsettled(states[i].db, r)
    requires events[i].op.SettleOp? && events[i].op.run == r && events[i].op.outcome.Terminal() && !events[i].op.fault
    ensures var s := states[i].db.runs[r].session;
            && s in states[i].db.sessions && s in states[i + 1].db.sessions && s in states[n].db.sessions
            && states[i + 1].db.sessions[s].timelineRevision == states[i].db.sessions[s].timelineRevision + 1
            && ReadStateOf(states[i + 1].db.sessions[s]).unread
            && (ReadStateOf(states[n].db.sessions[s]).unread
                || MarkedBetween(states, events, i + 1, n, s, states[i + 1].db.sessions[s].timelineRevision))
  {
    var op := events[i].op;
    EventHolds(states, events, i);
    hide Inv, History, Settle, MarkedBetween, OnlyRunMoves, SameCatalog;
    SettlementMeets(states[i], r, op.outcome, op.text, op.checkpoint, events[i].now, false);
    UnreadUntilMarked(states, events, i + 1, n, states[i].db.runs[r].session);
  }
}
