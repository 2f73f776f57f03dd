/**
 What each AuthorityStore operation does to the database and the artifact directories.

 A transaction that throws rolls back, so its result is the world it started from. Blobs are
 published before the statement that references them, so a rolled-back transaction can leave one.
 */
module AuthorityOperations {
  import opened Options
  import opened AuthorityTables

  // ---------------------------------------------------------------- shared statements

  function Here(db: Db): Position { Position(db.epoch, db.sequence) }

  /** UPDATE host SET sequence = sequence + 1, committed_at = now. */
  function Bump(db: Db, now: Time): Db { db.(sequence := db.sequence + 1, committedAt := now) }

  /** recordSynchronizationChange: the row takes the Host's sequence and commit time. */
  function Record(db: Db, change: Change): Db {
    db.(changes := db.changes + [Logged(db.sequence, db.committedAt, change)])
  }

  function PutSession(db: Db, s: SessionId, row: Session): Db {
    db.(sessions := db.sessions[s := row])
  }

  /** A first-revision row at the end of its timeline. */
  function NewEntry(db: Db, s: SessionId, r: RunId, kind: EntryKind, text: string,
                    checkpoint: Option<string>, blob: Option<Blob>,
                    finalized: bool, tool: Option<string>): Entry
  {
    Entry(s, r, NextEntryOrder(db.entries, s), kind, text, checkpoint, blob, 1, finalized, tool)
  }

  /** Inserts one entry and advances the timeline revision. */
  function AddEntry(db: Db, e: Entry): Db
    requires e.session in db.sessions
  {
    var row := db.sessions[e.session];
    PutSession(db.(entries := db.entries + [e]), e.session, row.(timelineRevision := row.timelineRevision + 1))
  }

  /** Rewrites an unfinalized entry one revision up and advances the timeline revision. */
  function ReviseEntry(db: Db, i: EntryId, text: string, finalized: bool): Db
    requires i < |db.entries| && db.entries[i].session in db.sessions
  {
    var e := db.entries[i];
    var row := db.sessions[e.session];
    PutSession(db.(entries := db.entries[i := e.(text := text, revision := e.revision + 1, finalized := finalized)]),
               e.session, row.(timelineRevision := row.timelineRevision + 1))
  }

  /** recordUnreadMilestone at the Session's current timeline revision. */
  function RecordMilestone(db: Db, s: SessionId, now: Time): Db
    requires s in db.sessions
  {
    var row := db.sessions[s];
    if ReadStateOf(row).unread then
      PutSession(db, s, row.(milestone := Some(row.timelineRevision)))
    else
      var next := row.(milestone := Some(row.timelineRevision), readRevision := row.readRevision + 1);
      Record(Bump(PutSession(db, s, next), now), ReadStateChanged(s, ReadStateOf(next)))
  }

  function PublishBlob(disk: Disk, blob: Option<Blob>): Disk {
    if blob.Some? then disk.(live := disk.live + {blob.value}) else disk
  }

  function HoldQueuedRows(runs: seq<Run>, s: SessionId): seq<Run> {
    seq(|runs|, i requires 0 <= i < |runs| =>
      if runs[i].session == s && runs[i].state.Queued? then runs[i].(state := Held) else runs[i])
  }

  function CancelWaitingRows(runs: seq<Run>, s: SessionId): seq<Run> {
    seq(|runs|, i requires 0 <= i < |runs| =>
      if runs[i].session == s && (runs[i].state.Queued? || runs[i].state.Held?)
      then runs[i].(state := Cancelled) else runs[i])
  }

  function ReleaseHeldRows(runs: seq<Run>, s: SessionId, r: RunId): seq<Run> {
    seq(|runs|, i requires 0 <= i < |runs| =>
      if runs[i].session == s && runs[i].state.Held?
      then runs[i].(state := if i == r then Executing else Queued) else runs[i])
  }

  function WithdrawRunInteractions(rows: seq<Interaction>, r: RunId): seq<Interaction> {
    seq(|rows|, i requires 0 <= i < |rows| =>
      if rows[i].run == r && rows[i].state.Active()
      then rows[i].(state := Withdrawn, revision := rows[i].revision + 1) else rows[i])
  }

  function WithdrawSessionInteractions(rows: seq<Interaction>, s: SessionId): seq<Interaction> {
    seq(|rows|, i requires 0 <= i < |rows| =>
      if rows[i].session == s && rows[i].state.Active()
      then rows[i].(state := Withdrawn, revision := rows[i].revision + 1) else rows[i])
  }

  // ---------------------------------------------------------------- command receipts

  predicate Received(db: Db, env: Envelope) { env.commandId in db.receipts }

  /** The answer to a command whose identity already has a receipt. */
  function Repeat(db: Db, env: Envelope): Reply
    requires Received(db, env)
  {
    var receipt := db.receipts[env.commandId];
    if receipt.envelope != env then Conflict else Replayed(receipt.outcome)
  }

  function File(db: Db, env: Envelope, outcome: Outcome): Db {
    db.(receipts := db.receipts[env.commandId := Receipt(env, outcome)])
  }

  function Reject(w: World, env: Envelope, error: Refusal): (World, Reply) {
    var outcome := Rejected(error, Here(w.db));
    (w.(db := File(w.db, env, outcome)), Fresh(outcome))
  }

  function Accept(w: World, env: Envelope, effect: Effect, position: Position): (World, Reply) {
    var outcome := Accepted(effect, position);
    (w.(db := File(w.db, env, outcome)), Fresh(outcome))
  }

  // ---------------------------------------------------------------- sessions

  function CreateProject(w: World, project: ProjectId, workspace: WorkspaceId, now: Time): World {
    if project in w.db.projects || workspace in w.db.workspaces then w
    else
      var db := w.db.(projects := w.db.projects + {project},
                      workspaces := w.db.workspaces[workspace := project]);
      w.(db := Record(Bump(db, now), ProjectCreated(project, workspace)))
  }

  predicate ScopeIsValid(db: Db, project: Option<ProjectId>, workspace: Option<WorkspaceId>) {
    && (project.Some? ==> project.value in db.projects)
    && (workspace.Some? ==>
          && workspace.value in db.workspaces
          && project == Some(db.workspaces[workspace.value]))
  }

  /** insertWorkspace refuses another project for a known workspace, and an unknown project. */
  predicate WorkspaceConflicts(db: Db, added: Option<(WorkspaceId, ProjectId)>) {
    added.Some? && if added.value.0 in db.workspaces then db.workspaces[added.value.0] != added.value.1
                   else added.value.1 !in db.projects
  }

  function WithWorkspace(db: Db, added: Option<(WorkspaceId, ProjectId)>): Db {
    if added.Some? then db.(workspaces := db.workspaces[added.value.0 := added.value.1]) else db
  }

  function NewSession(project: Option<ProjectId>, workspace: Option<WorkspaceId>): Session {
    Session(project, workspace, "Untitled Session", false, false, 1, 1, 1, 1, None, None)
  }

  /** createSession, with the optional workspace that is upserted in the same transaction. */
  function CreateSession(w: World, s: SessionId, project: Option<ProjectId>,
                         workspace: Option<WorkspaceId>, added: Option<(WorkspaceId, ProjectId)>,
                         now: Time): World
  {
    var db := WithWorkspace(w.db, added);
    var scope := if added.Some? then Some(added.value.0) else workspace;
    if WorkspaceConflicts(w.db, added) || !ScopeIsValid(db, project, scope) || s in db.sessions then w
    else
      var row := NewSession(project, scope);
      w.(db := Record(Bump(PutSession(db, s, row), now), SessionCreated(s, SummaryOf(row))))
  }

  function Rename(w: World, env: Envelope, now: Time): (World, Reply)
    requires env.RenameEnvelope?
  {
    var db := w.db;
    if Received(db, env) then (w, Repeat(db, env))
    else if env.session !in db.sessions then Reject(w, env, UnknownSession)
    else if db.sessions[env.session].metadataRevision != env.observed then Reject(w, env, StalePrecondition)
    else
      var row := db.sessions[env.session].(
        name := env.name, metadataRevision := db.sessions[env.session].metadataRevision + 1);
      var next := Record(Bump(PutSession(db, env.session, row), now),
                         SessionRenamed(env.session, SummaryOf(row)));
      Accept(w.(db := next), env, Renamed(SummaryOf(row)), Here(next))
  }

  function ChangeAvailability(w: World, env: Envelope, now: Time): (World, Reply)
    requires env.AvailabilityEnvelope?
  {
    var db := w.db;
    if Received(db, env) then (w, Repeat(db, env))
    else if env.session !in db.sessions then Reject(w, env, UnknownSession)
    else if db.sessions[env.session].metadataRevision != env.observed then Reject(w, env, StalePrecondition)
    else if db.sessions[env.session].archived == env.archive then
      Reject(w, env, if env.archive then AlreadyArchived else NotArchived)
    else if env.archive && SessionHasActiveWork(db, env.session) then Reject(w, env, SessionNotQuiescent)
    else
      var row := db.sessions[env.session].(
        archived := env.archive, resident := false,
        metadataRevision := db.sessions[env.session].metadataRevision + 1);
      var change := if env.archive then SessionArchived(env.session, SummaryOf(row))
                    else SessionRestored(env.session, SummaryOf(row));
      var next := Record(Bump(PutSession(db, env.session, row), now), change);
      Accept(w.(db := next), env, AvailabilityChanged(SummaryOf(row)), Here(next))
  }

  /** markSessionRead; `fault` is the storage fault before COMMIT. */
  function MarkRead(w: World, env: Envelope, now: Time, fault: bool): (World, Reply)
    requires env.MarkReadEnvelope?
  {
    var db := w.db;
    if Received(db, env) then (w, Repeat(db, env))
    else if fault then (w, Threw)
    else if env.session !in db.sessions then Reject(w, env, UnknownSession)
    else
      var row := db.sessions[env.session];
      if env.presented < 1 || env.presented > row.timelineRevision then Reject(w, env, InvalidRevision)
      else if env.presented <= row.readThrough then
        Accept(w, env, MarkedRead(false, ReadStateOf(row)), Here(db))
      else
        var next := row.(readThrough := env.presented, readRevision := row.readRevision + 1);
        var committed := Record(Bump(PutSession(db, env.session, next), now),
                                ReadStateChanged(env.session, ReadStateOf(next)));
        Accept(w.(db := committed), env, MarkedRead(true, ReadStateOf(next)), Here(committed))
  }

  function Sleep(w: World, s: SessionId, now: Time): World {
    if s !in w.db.sessions || !w.db.sessions[s].resident || SessionHasActiveWork(w.db, s) then w
    else
      var row := w.db.sessions[s].(
        resident := false, metadataRevision := w.db.sessions[s].metadataRevision + 1);
      w.(db := Record(Bump(PutSession(w.db, s, row), now), ResidencyChanged(s, SummaryOf(row))))
  }

  function ResetResidency(w: World): World {
    w.(db := w.db.(sessions := map s | s in w.db.sessions :: w.db.sessions[s].(resident := false)))
  }

  // ---------------------------------------------------------------- forks

  /** The rows of a timeline up to and including an order. */
  function UpTo(rows: seq<Entry>, order: nat): seq<Entry> {
    if rows == [] then []
    else
      var front := UpTo(rows[..|rows| - 1], order);
      if rows[|rows| - 1].order <= order then front + [rows[|rows| - 1]] else front
  }

  /** The terminal Runs of a Session that a copied row names, in table order. */
  function CopiedRuns(runs: seq<Run>, s: SessionId, rows: seq<Entry>): seq<RunId> {
    if runs == [] then []
    else
      var front := CopiedRuns(runs[..|runs| - 1], s, rows);
      var r := |runs| - 1;
      if runs[r].session == s && runs[r].state.Terminal() && (exists k :: 0 <= k < |rows| && rows[k].run == r)
      then front + [r] else front
  }

  function IndexOf(ids: seq<RunId>, r: RunId): (found: Option<nat>)
    ensures found.Some? ==> found.value < |ids| && ids[found.value] == r
    ensures found.None? ==> r !in ids
  {
    if ids == [] then None
    else if ids[|ids| - 1] == r then Some(|ids| - 1)
    else IndexOf(ids[..|ids| - 1], r)
  }

  /** The child's Run rows: the copied Runs under the child Session. */
  function ChildRuns(runs: seq<Run>, ids: seq<RunId>, child: SessionId): seq<Run>
    requires forall k :: 0 <= k < |ids| ==> ids[k] < |runs|
  {
    seq(|ids|, k requires 0 <= k < |ids| => runs[ids[k]].(session := child))
  }

  predicate Copyable(rows: seq<Entry>, ids: seq<RunId>) {
    forall k :: 0 <= k < |rows| ==> rows[k].finalized && rows[k].run in ids
  }

  /** The child's entry rows; `base` is the identity the first copied Run receives. */
  function ChildEntries(rows: seq<Entry>, ids: seq<RunId>, base: RunId, child: SessionId,
                        point: nat, checkpoint: string): seq<Entry>
    requires Copyable(rows, ids)
  {
    seq(|rows|, k requires 0 <= k < |rows| =>
      assert rows[k].run in ids;
      rows[k].(session := child,
               run := base + IndexOf(ids, rows[k].run).value,
               checkpoint := if rows[k].order == point then Some(checkpoint) else rows[k].checkpoint))
  }

  /** MAX(entry_order + 1) over the milestone kinds. */
  function LastMilestone(rows: seq<Entry>): Option<nat> {
    if rows == [] then None
    else
      var rest := LastMilestone(rows[..|rows| - 1]);
      var last := rows[|rows| - 1];
      if last.kind.Milestone() && (rest.None? || last.order + 1 > rest.value) then Some(last.order + 1) else rest
  }

  lemma {:induction false} CopiedRunsExist(runs: seq<Run>, s: SessionId, rows: seq<Entry>)
    ensures forall k :: 0 <= k < |CopiedRuns(runs, s, rows)| ==>
              && CopiedRuns(runs, s, rows)[k] < |runs|
              && runs[CopiedRuns(runs, s, rows)[k]].session == s
              && runs[CopiedRuns(runs, s, rows)[k]].state.Terminal()
  {
    if runs != [] {
      CopiedRunsExist(runs[..|runs| - 1], s, rows);
    }
  }

  predicate ForkPointIsValid(db: Db, parent: SessionId, point: EntryId,
                             parentCheckpoint: string, childCheckpoint: string)
  {
    && parent in db.sessions
    && point < |db.entries|
    && db.entries[point].session == parent
    && db.entries[point].finalized
    && db.entries[point].kind.ResponseEntry?
    && db.entries[point].checkpoint == Some(parentCheckpoint)
    && childCheckpoint != ""
    && childCheckpoint != parentCheckpoint
  }

  /** forkSession; an undefined scope argument (None) inherits the parent's. */
  function Fork(w: World, parent: SessionId, point: EntryId,
                project: Option<Option<ProjectId>>, workspace: Option<Option<WorkspaceId>>,
                child: SessionId, parentCheckpoint: string, childCheckpoint: string, now: Time): World
  {
    var db := w.db;
    if !ForkPointIsValid(db, parent, point, parentCheckpoint, childCheckpoint) then w
    else
      var targetProject := if project.None? then db.sessions[parent].project else project.value;
      var targetWorkspace := if workspace.None? then db.sessions[parent].workspace else workspace.value;
      var rows := UpTo(Timeline(db.entries, parent), db.entries[point].order);
      var ids := CopiedRuns(db.runs, parent, rows);
      CopiedRunsExist(db.runs, parent, rows);
      if !ScopeIsValid(db, targetProject, targetWorkspace) || child in db.sessions || !Copyable(rows, ids) then w
      else
        var copies := ChildEntries(rows, ids, |db.runs|, child, db.entries[point].order, childCheckpoint);
        var row := Session(targetProject, targetWorkspace, "Untitled Session", false, false,
                           1, |copies| + 1, |copies| + 1, 1, LastMilestone(copies), Some((parent, point)));
        var inserted := PutSession(
          db.(runs := db.runs + ChildRuns(db.runs, ids, child), entries := db.entries + copies), child, row);
        w.(db := Record(Bump(inserted, now), SessionForked(child, SummaryOf(row))))
  }

  // ---------------------------------------------------------------- runs

  function Submit(w: World, env: Envelope, now: Time): (World, Reply)
    requires env.SubmitEnvelope?
  {
    var db := w.db;
    var s := env.session;
    if Received(db, env) then (w, Repeat(db, env))
    else if s !in db.sessions then Reject(w, env, UnknownSession)
    else if db.sessions[s].archived then Reject(w, env, SessionIsArchived)
    else if env.followUp && !SessionOccupied(db.runs, s) then Reject(w, env, NoExecutingRun)
    else if !env.followUp && SessionOccupied(db.runs, s) then Reject(w, env, SessionBusy)
    else
      var run := Run(s, NextRunOrder(db.runs, s), env.prompt, if env.followUp then Queued else Executing);
      var ran := AddEntry(db.(runs := db.runs + [run]),
                          NewEntry(db, s, |db.runs|, PromptEntry, env.prompt, None, env.images, true, None));
      var next := PutSession(ran, s, ran.sessions[s].(resident := true));
      Accept(World(next, PublishBlob(w.disk, env.images)), env, Submitted(|db.runs|), Here(db))
  }

  /** The exact-target condition shared by steering and stopping. */
  predicate TargetsActiveExecution(db: Db, s: SessionId, r: RunId, generation: nat, observed: nat,
                                   active: Option<nat>)
  {
    && r < |db.runs| && db.runs[r].session == s && db.runs[r].state.Executing?
    && active == Some(generation)
    && s in db.sessions && db.sessions[s].timelineRevision == observed
  }

  function Steer(w: World, env: Envelope, active: Option<nat>, now: Time): (World, Reply)
    requires env.SteerEnvelope?
  {
    var db := w.db;
    if Received(db, env) then (w, Repeat(db, env))
    else if !TargetsActiveExecution(db, env.session, env.run, env.generation, env.observed, active) then
      Reject(w, env, StaleExecution)
    else
      var e := NewEntry(db, env.session, env.run, SteeringEntry, env.text, None, env.images, true, None);
      var next := Bump(AddEntry(db, e), now);
      Accept(World(next, PublishBlob(w.disk, env.images)), env, Steered(|db.entries|), Here(next))
  }

  const CANCELLATION_REQUESTED :=
    "Cancellation requested; partial output and committed side effects are preserved."

  /** acceptStop; a stale stop is answered without a receipt. */
  function Stop(w: World, env: Envelope, active: Option<nat>, now: Time): (World, Reply)
    requires env.StopEnvelope?
  {
    var db := w.db;
    if Received(db, env) then (w, Repeat(db, env))
    else if !TargetsActiveExecution(db, env.session, env.run, env.generation, env.observed, active) then
      (w, Fresh(Rejected(StaleExecution, Here(db))))
    else
      var stopping := db.runs[env.run := db.runs[env.run].(state := Cancelling)];
      var stopped := db.(runs := CancelWaitingRows(stopping, env.session),
                         interactions := WithdrawRunInteractions(db.interactions, env.run));
      var e := NewEntry(db, env.session, env.run, LifecycleEntry, CANCELLATION_REQUESTED, None, None, true, None);
      var next := Bump(AddEntry(stopped, e), now);
      Accept(w.(db := next), env, Stopped(env.run, |db.entries|), Here(next))
  }

  predicate Settleable(db: Db, r: RunId) {
    && r < |db.runs| && (db.runs[r].state.Executing? || db.runs[r].state.Cancelling?)
    && db.runs[r].session in db.sessions
  }

  /** The transaction of settleRun on a Run that is executing or cancelling. */
  function SettleTransaction(db: Db, r: RunId, outcome: RunState, text: string,
                             checkpoint: Option<string>, now: Time): Db
    requires Settleable(db, r)
  {
    var s := db.runs[r].session;
    var kind := if outcome.Completed? then ResponseEntry else OutcomeEntry;
    var written := AddEntry(db, NewEntry(db, s, r, kind, text, checkpoint, Some(text), true, None));
    var settled := written.(runs := db.runs[r := db.runs[r].(state := outcome)]);
    Bump(RecordMilestone(settled, s, now), now)
  }

  /** settleRun: the text is published as a blob whether or not the transaction commits. */
  function Settle(w: World, r: RunId, outcome: RunState, text: string, checkpoint: Option<string>,
                  now: Time, fault: bool): World
  {
    var disk := PublishBlob(w.disk, Some(text));
    if fault || !Settleable(w.db, r) then World(w.db, disk)
    else World(SettleTransaction(w.db, r, outcome, text, checkpoint, now), disk)
  }

  function Dispatch(w: World, s: SessionId): World {
    var next := FirstQueued(w.db.runs, s);
    if SessionIsExecuting(w.db.runs, s) || next.None? then w
    else w.(db := w.db.(runs := w.db.runs[next.value := w.db.runs[next.value].(state := Executing)]))
  }

  function HoldQueued(w: World, s: SessionId): World {
    w.(db := w.db.(runs := HoldQueuedRows(w.db.runs, s)))
  }

  predicate WaitsBehind(runs: seq<Run>, r: RunId)
    requires r < |runs|
  {
    exists i :: 0 <= i < |runs| && runs[i].session == runs[r].session && runs[i].order < runs[r].order
                && (runs[i].state.Queued? || runs[i].state.Held?)
  }

  function Release(w: World, r: RunId): World {
    var runs := w.db.runs;
    if r >= |runs| || !runs[r].state.Held? || SessionIsExecuting(runs, runs[r].session) || WaitsBehind(runs, r)
    then w
    else w.(db := w.db.(runs := ReleaseHeldRows(runs, runs[r].session, r)))
  }

  function CancelWaiting(w: World, r: RunId): World {
    var runs := w.db.runs;
    if r >= |runs| || !(runs[r].state.Queued? || runs[r].state.Held?) then w
    else w.(db := w.db.(runs := runs[r := runs[r].(state := Cancelled)]))
  }

  function DropResidency(w: World, s: SessionId): World {
    if s !in w.db.sessions then w
    else w.(db := PutSession(w.db, s, w.db.sessions[s].(resident := false)))
  }

  /**
   recoverWorkerLoss: withdraws interactions, holds continuation, drops residency. These are
   separate statements, so a crash can also stop between them.
   */
  function LoseWorker(w: World, s: SessionId): World {
    var withdrawn := w.(db := w.db.(interactions := WithdrawSessionInteractions(w.db.interactions, s)));
    DropResidency(HoldQueued(withdrawn, s), s)
  }

  // ---------------------------------------------------------------- live timeline facts

  datatype TimelineEvent =
    | AssistantDelta(text: string)
    | ToolStarted(toolCall: string, name: string)
    | ToolCompleted(toolCall: string, name: string, text: string)

  /** What the Host sends its watching Clients after one timeline revision. */
  datatype TimelineChange = TimelineChange(session: SessionId, baseRevision: nat, revision: nat, id: EntryId, entry: Entry)

  /** An open row that no longer has its Session cannot arise; the update then has no effect. */
  function ApplyEvent(w: World, s: SessionId, r: RunId, event: TimelineEvent): World {
    var db := w.db;
    if s !in db.sessions then w
    else
      w.(db := match event
        case AssistantDelta(text) =>
          var found := FindOpenAssistant(db.entries, s, r);
          if found.Some? then ReviseEntry(db, found.value, db.entries[found.value].text + text, false)
          else AddEntry(db, NewEntry(db, s, r, AssistantEntry, text, None, None, false, None))
        case ToolStarted(call, name) =>
          AddEntry(db, NewEntry(db, s, r, ToolEntry, name, None, None, false, Some(call)))
        case ToolCompleted(call, name, text) =>
          var found := FindOpenTool(db.entries, s, r, call);
          if found.Some? then ReviseEntry(db, found.value, name + ": " + text, true)
          else AddEntry(db, NewEntry(db, s, r, ToolEntry, name + ": " + text, None, None, true, Some(call))))
  }

  function FinalizeAssistant(w: World, s: SessionId, r: RunId): World {
    var found := FindOpenAssistant(w.db.entries, s, r);
    if found.None? || s !in w.db.sessions then w
    else w.(db := ReviseEntry(w.db, found.value, w.db.entries[found.value].text, true))
  }

  // ---------------------------------------------------------------- interactions

  /** createInteraction; the foreign keys and the correlation uniqueness roll the insert back. */
  function OpenInteraction(w: World, s: SessionId, r: RunId, generation: nat, correlation: nat,
                           message: string, now: Time): World
  {
    var db := w.db;
    if || s !in db.sessions || r >= |db.runs|
       || (exists i :: 0 <= i < |db.interactions| && db.interactions[i].session == s
                       && db.interactions[i].generation == generation
                       && db.interactions[i].correlation == correlation)
    then w
    else
      var asked := db.(interactions := db.interactions + [Interaction(s, r, generation, correlation, Open, 1)]);
      var e := NewEntry(db, s, r, InteractionEntry, message, None, None, true, None);
      w.(db := RecordMilestone(AddEntry(asked, e), s, now))
  }

  function ReserveInteraction(w: World, i: InteractionId, revision: nat): World {
    var rows := w.db.interactions;
    if i < |rows| && rows[i].state.Open? && rows[i].revision == revision
    then w.(db := w.db.(interactions := rows[i := rows[i].(state := Resolving, revision := revision + 1)]))
    else w
  }

  function SettleInteraction(w: World, i: InteractionId, from: InteractionState, to: InteractionState): World {
    var rows := w.db.interactions;
    if i < |rows| && rows[i].state == from
    then w.(db := w.db.(interactions := rows[i := rows[i].(state := to, revision := rows[i].revision + 1)]))
    else w
  }

  // ---------------------------------------------------------------- retention and epochs

  const RETENTION: Time := 7 * 24 * 60 * 60 * 1000

  /** DELETE FROM synchronization_changes WHERE committed_at < cutoff. */
  function KeepRecent(changes: seq<Logged>, cutoff: Time): seq<Logged> {
    if changes == [] then []
    else
      var front := KeepRecent(changes[..|changes| - 1], cutoff);
      if changes[|changes| - 1].committedAt < cutoff then front else front + [changes[|changes| - 1]]
  }

  /** The blobs that timeline entries name. */
  function EntryBlobs(entries: seq<Entry>): set<Blob> {
    set i | 0 <= i < |entries| && entries[i].blob.Some? :: entries[i].blob.value
  }

  function Referenced(db: Db): set<Blob> { EntryBlobs(db.entries) + db.retained }

  /** The physical moves a maintenance transaction decides, or the part of them a crash let happen. */
  datatype Moves = Moves(restored: set<Blob>, quarantined: set<Blob>, deleted: set<Blob>)

  function PlannedMoves(w: World, now: Time): Moves {
    var referenced := Referenced(w.db);
    Moves(set b | b in w.db.orphans && b in referenced,
          set b | b in w.disk.live && b !in referenced && b !in w.db.orphans,
          set b | b in w.db.orphans && b !in referenced && now > w.db.orphans[b])
  }

  function MaintenanceTransaction(w: World, now: Time): Db {
    var moves := PlannedMoves(w, now);
    w.db.(changes := KeepRecent(w.db.changes, now - RETENTION),
          orphans := (w.db.orphans - (moves.restored + moves.deleted)) + map b | b in moves.quarantined :: now)
  }

  /** Moving files that are not where the move expects them does nothing. */
  function ApplyMoves(disk: Disk, done: Moves): Disk {
    disk.(live := disk.live + (done.restored * disk.quarantined) - done.quarantined,
          quarantined := disk.quarantined - done.restored + (done.quarantined * disk.live) - done.deleted)
  }

  predicate WithinMoves(done: Moves, planned: Moves) {
    && done.restored <= planned.restored
    && done.quarantined <= planned.quarantined
    && done.deleted <= planned.deleted
  }

  /** runMaintenance, whose physical moves stopped after `done`. */
  function Maintain(w: World, now: Time, done: Moves): World {
    if !WithinMoves(done, PlannedMoves(w, now)) then w
    else World(MaintenanceTransaction(w, now), ApplyMoves(w.disk, done))
  }

  function RotateEpoch(w: World, now: Time): World {
    w.(db := Bump(w.db, now).(epoch := w.db.epoch + 1, changes := []))
  }

  function Retain(w: World, b: Blob): World { w.(db := w.db.(retained := w.db.retained + {b})) }

  // ---------------------------------------------------------------- completion evidence

  /** stageCompletionEvidence; an invalid or colliding candidate is not published. */
  function StageEvidence(w: World, r: RunId, text: string, checkpoint: string): World {
    if checkpoint == "" || r in w.disk.evidence then w
    else w.(disk := w.disk.(evidence := w.disk.evidence[r := Valid(text, checkpoint)]))
  }

  function RemoveEvidence(w: World, r: RunId): World {
    w.(disk := w.disk.(evidence := w.disk.evidence - {r}))
  }

  // ---------------------------------------------------------------- reading the log

  datatype Basis = Compatible(sequence: nat) | EpochMismatch | HistoryUnavailable

  /** cursorBasis on a cursor of this Host. */
  function CursorBasis(db: Db, cursor: Position): Basis {
    if cursor.epoch != db.epoch then EpochMismatch
    else if cursor.sequence > db.sequence then HistoryUnavailable
    else if cursor.sequence < db.sequence
            && (db.changes == [] || cursor.sequence < db.changes[0].sequence - 1)
    then HistoryUnavailable
    else Compatible(cursor.sequence)
  }

  /** changesAfter: the retained rows beyond a sequence, in sequence order. */
  function ChangesAfter(changes: seq<Logged>, sequence: nat): seq<Logged> {
    if changes == [] then []
    else
      var front := ChangesAfter(changes[..|changes| - 1], sequence);
      if changes[|changes| - 1].sequence > sequence then front + [changes[|changes| - 1]] else front
  }
}
