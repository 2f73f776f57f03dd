/**
 What each operation leaves, as its callers see it: rows, revisions, the log and receipts, said of the
 tables themselves.
 */
module AuthorityOutcomes {
  import opened Options
  import opened AuthorityTables
  import opened AuthorityOperations
  import opened AuthorityInvariants
  import opened AuthoritySteps
  import opened AuthorityForkSteps
  import opened AuthorityRetentionSteps

  // ---------------------------------------------------------------- what may stay

  /** The log, the Host's sequence and its commit time are as they were. */
  ghost predicate Unpublished(a: Db, b: Db) {
    b.epoch == a.epoch && b.sequence == a.sequence && b.committedAt == a.committedAt && b.changes == a.changes
  }

  /** The sequence moved on at this time, without a change. */
  ghost predicate Sequenced(a: Db, b: Db, now: Time) {
    b.epoch == a.epoch && b.sequence == a.sequence + 1 && b.committedAt == now && b.changes == a.changes
  }

  /** One change more, at the next sequence and this time. */
  ghost predicate Publishes(a: Db, b: Db, now: Time, change: Change) {
    && b.epoch == a.epoch && b.sequence == a.sequence + 1 && b.committedAt == now
    && b.changes == a.changes + [Logged(a.sequence + 1, now, change)]
  }

  /** No Session but this one is new or changed. */
  ghost predicate OnlySession(a: Db, b: Db, s: SessionId) {
    && s in b.sessions && b.sessions.Keys == a.sessions.Keys + {s}
    && forall t :: t in a.sessions && t != s ==> b.sessions[t] == a.sessions[t]
  }

  ghost predicate OnlyRunMoves(a: Db, b: Db, r: RunId) {
    |b.runs| == |a.runs| && forall q :: 0 <= q < |a.runs| && q != r ==> b.runs[q] == a.runs[q]
  }

  ghost predicate SameRows(a: Db, b: Db) {
    b.runs == a.runs && b.entries == a.entries && b.interactions == a.interactions
  }

  ghost predicate SameCatalog(a: Db, b: Db) {
    b.projects == a.projects && b.workspaces == a.workspaces && b.orphans == a.orphans && b.retained == a.retained
  }

  /** One more row, of first revision, at the end of its Session's timeline, which moves one revision. */
  ghost predicate Gains(a: Db, b: Db, s: SessionId, r: RunId, kind: EntryKind, text: string, checkpoint: Option<string>,
                        blob: Option<Blob>, finalized: bool, tool: Option<string>)
  {
    && b.entries == a.entries + [Entry(s, r, |Timeline(a.entries, s)| + 1, kind, text, checkpoint, blob, 1, finalized, tool)]
    && s in a.sessions && s in b.sessions && b.sessions[s].timelineRevision == a.sessions[s].timelineRevision + 1
  }

  /** One row has this text at its next revision, and its Session's timeline moves one revision. */
  ghost predicate Rewrites(a: Db, b: Db, i: EntryId, text: string, finalized: bool) {
    && i < |a.entries|
    && b.entries == a.entries[i := a.entries[i].(text := text, finalized := finalized, revision := a.entries[i].revision + 1)]
    && a.entries[i].session in a.sessions && a.entries[i].session in b.sessions
    && b.sessions[a.entries[i].session].timelineRevision == a.sessions[a.entries[i].session].timelineRevision + 1
  }

  /** Only one row and its Session's timeline revision move. */
  ghost predicate OnlyTimeline(a: Db, b: Db, s: SessionId) {
    && OnlySession(a, b, s) && s in a.sessions
    && b.sessions[s] == a.sessions[s].(timelineRevision := b.sessions[s].timelineRevision)
    && Unpublished(a, b) && b.runs == a.runs && b.interactions == a.interactions && b.receipts == a.receipts && SameCatalog(a, b)
  }

  /**
   The Session is unread at its new timeline revision. If it was read, that is published under the next
   read-state revision; if it was unread already, nobody is told anything.
   */
  ghost predicate BecomesUnread(a: Db, b: Db, s: SessionId, now: Time) {
    && s in a.sessions && s in b.sessions && b.epoch == a.epoch
    && var was, row := a.sessions[s], b.sessions[s];
       && row.milestone == Some(row.timelineRevision) && row.readThrough == was.readThrough
       && ReadStateOf(row).unread
       && if ReadStateOf(was).unread then
            row.readRevision == was.readRevision && b.changes == a.changes
          else
            && row.readRevision == was.readRevision + 1
            && b.changes == a.changes + [Logged(a.sequence + 1, now, ReadStateChanged(s, ReadState(was.readThrough, true, row.readRevision)))]
  }

  // ---------------------------------------------------------------- statements the operations share

  /** Inserting a new row of a Session into tables that still have its timeline. */
  lemma InsertedGains(db: Db, c: Db, s: SessionId, r: RunId, kind: EntryKind, text: string, checkpoint: Option<string>,
                      blob: Option<Blob>, finalized: bool, tool: Option<string>)
    requires Dense(db.entries) && s in db.sessions && c.entries == db.entries && c.sessions == db.sessions
    ensures var b := AddEntry(c, NewEntry(db, s, r, kind, text, checkpoint, blob, finalized, tool));
            && Gains(db, b, s, r, kind, text, checkpoint, blob, finalized, tool) && OnlySession(db, b, s)
            && b == c.(entries := b.entries, sessions := b.sessions)
            && b.sessions[s] == db.sessions[s].(timelineRevision := db.sessions[s].timelineRevision + 1)
  {
    NextEntryOrderIsCount(db.entries, s);
    hide NextEntryOrder, Timeline, Dense;
  }

  lemma RevisedRewrites(db: Db, i: EntryId, text: string, finalized: bool)
    requires i < |db.entries| && db.entries[i].session in db.sessions
    ensures var b := ReviseEntry(db, i, text, finalized);
            && Rewrites(db, b, i, text, finalized) && OnlyTimeline(db, b, db.entries[i].session)
  {}

  /** Recording a milestone right after a row was added. */
  lemma MilestoneMakesUnread(a: Db, m: Db, s: SessionId, now: Time)
    requires s in a.sessions && s in m.sessions && a.sessions[s].readThrough <= a.sessions[s].timelineRevision
    requires m.sessions[s] == a.sessions[s].(timelineRevision := a.sessions[s].timelineRevision + 1)
    requires m.epoch == a.epoch && m.sequence == a.sequence && m.changes == a.changes && m.committedAt == a.committedAt
    ensures var b := RecordMilestone(m, s, now);
            && BecomesUnread(a, b, s, now)
            && b == m.(sessions := b.sessions, sequence := b.sequence, committedAt := b.committedAt, changes := b.changes)
            && b.sessions == m.sessions[s := b.sessions[s]]
            && b.sessions[s].timelineRevision == m.sessions[s].timelineRevision
            && b.sequence == a.sequence + if ReadStateOf(a.sessions[s]).unread then 0 else 1
  {}

  // ---------------------------------------------------------------- commands

  /** A refusal is answered and filed, and nothing else happens. */
  ghost predicate Refused(a: World, b: World, env: Envelope, reply: Reply, error: Refusal) {
    && reply == Fresh(Rejected(error, Position(a.db.epoch, a.db.sequence)))
    && b == a.(db := a.db.(receipts := a.db.receipts[env.commandId := Receipt(env, reply.outcome)]))
  }

  /** An acceptance is answered and filed at a position of the log. */
  ghost predicate AcceptedAt(a: World, b: World, env: Envelope, reply: Reply, effect: Effect, sequence: nat) {
    && reply == Fresh(Accepted(effect, Position(a.db.epoch, sequence)))
    && b.db.receipts == a.db.receipts[env.commandId := Receipt(env, reply.outcome)]
  }

  /** A published summary tells all of a Session's row but what only the Host needs. */
  lemma SummaryTells(row: Session)
    ensures var told := SummaryOf(row);
            && told.project == row.project && told.workspace == row.workspace && told.name == row.name
            && told.archived == row.archived && told.resident == row.resident && told.parent == row.parent
            && told.metadataRevision == row.metadataRevision && told.timelineRevision == row.timelineRevision
            && told.readState.through == row.readThrough && told.readState.revision == row.readRevision
            && (told.readState.unread <==> exists milestone :: row.milestone == Some(milestone) && milestone > row.readThrough)
  {}

  /** A new name for one Session, under its next metadata revision, and nothing else of it. */
  ghost predicate RenameOutcome(a: World, b: World, env: Envelope, reply: Reply, now: Time)
    requires env.RenameEnvelope?
  {
    var s := env.session;
    if s !in a.db.sessions then Refused(a, b, env, reply, UnknownSession)
    else if a.db.sessions[s].metadataRevision != env.observed then Refused(a, b, env, reply, StalePrecondition)
    else
      && OnlySession(a.db, b.db, s)
      && b.db.sessions[s] == a.db.sessions[s].(name := env.name, metadataRevision := env.observed + 1)
      && Publishes(a.db, b.db, now, SessionRenamed(s, SummaryOf(b.db.sessions[s])))
      && AcceptedAt(a, b, env, reply, Renamed(SummaryOf(b.db.sessions[s])), b.db.sequence)
      && SameRows(a.db, b.db) && SameCatalog(a.db, b.db) && b.disk == a.disk
  }

  lemma RenameMeets(w: World, env: Envelope, now: Time)
    requires env.RenameEnvelope? && env.commandId !in w.db.receipts
    ensures var (b, reply) := Rename(w, env, now); RenameOutcome(w, b, env, reply, now)
  {}

  /** No Run of the Session is unfinished and no interaction open. */
  ghost predicate Quiescent(db: Db, s: SessionId) {
    && (forall i :: 0 <= i < |db.runs| && db.runs[i].session == s ==> db.runs[i].state.Terminal())
    && forall i :: 0 <= i < |db.interactions| && db.interactions[i].session == s
         ==> !(db.interactions[i].state.Open? || db.interactions[i].state.Resolving?)
  }

  ghost predicate AvailabilityOutcome(a: World, b: World, env: Envelope, reply: Reply, now: Time)
    requires env.AvailabilityEnvelope?
  {
    var s := env.session;
    if s !in a.db.sessions then Refused(a, b, env, reply, UnknownSession)
    else if a.db.sessions[s].metadataRevision != env.observed then Refused(a, b, env, reply, StalePrecondition)
    else if env.archive && a.db.sessions[s].archived then Refused(a, b, env, reply, AlreadyArchived)
    else if !env.archive && !a.db.sessions[s].archived then Refused(a, b, env, reply, NotArchived)
    else if env.archive && !Quiescent(a.db, s) then Refused(a, b, env, reply, SessionNotQuiescent)
    else
      && OnlySession(a.db, b.db, s)
      && b.db.sessions[s] == a.db.sessions[s].(archived := env.archive, resident := false, metadataRevision := env.observed + 1)
      && (env.archive ==> Publishes(a.db, b.db, now, SessionArchived(s, SummaryOf(b.db.sessions[s]))))
      && (!env.archive ==> Publishes(a.db, b.db, now, SessionRestored(s, SummaryOf(b.db.sessions[s]))))
      && AcceptedAt(a, b, env, reply, AvailabilityChanged(SummaryOf(b.db.sessions[s])), b.db.sequence)
      && SameRows(a.db, b.db) && SameCatalog(a.db, b.db) && b.disk == a.disk
  }

  lemma AvailabilityMeets(w: World, env: Envelope, now: Time)
    requires env.AvailabilityEnvelope? && env.commandId !in w.db.receipts
    ensures var (b, reply) := ChangeAvailability(w, env, now); AvailabilityOutcome(w, b, env, reply, now)
  {}

  /**
   Marking read moves the read position to what was presented, if that is beyond it; the Session is then unread
   exactly if its milestone is beyond what was presented.
   */
  ghost predicate MarkReadOutcome(a: World, b: World, env: Envelope, reply: Reply, now: Time)
    requires env.MarkReadEnvelope?
  {
    var s := env.session;
    if s !in a.db.sessions then Refused(a, b, env, reply, UnknownSession)
    else if env.presented < 1 || env.presented > a.db.sessions[s].timelineRevision then
      Refused(a, b, env, reply, InvalidRevision)
    else if env.presented <= a.db.sessions[s].readThrough then
      && AcceptedAt(a, b, env, reply, MarkedRead(false, ReadStateOf(a.db.sessions[s])), a.db.sequence)
      && b == a.(db := a.db.(receipts := b.db.receipts))
    else
      && OnlySession(a.db, b.db, s)
      && var was, row := a.db.sessions[s], b.db.sessions[s];
         var unread := was.milestone.Some? && was.milestone.value > env.presented;
         var marked := ReadState(env.presented, unread, was.readRevision + 1);
         && row == was.(readThrough := env.presented, readRevision := was.readRevision + 1) && ReadStateOf(row) == marked
         && Publishes(a.db, b.db, now, ReadStateChanged(s, marked))
         && AcceptedAt(a, b, env, reply, MarkedRead(true, marked), b.db.sequence)
         && SameRows(a.db, b.db) && SameCatalog(a.db, b.db) && b.disk == a.disk
  }

  lemma MarkReadMeets(w: World, env: Envelope, now: Time)
    requires env.MarkReadEnvelope? && env.commandId !in w.db.receipts
    ensures var (b, reply) := MarkRead(w, env, now, false); MarkReadOutcome(w, b, env, reply, now)
    ensures MarkRead(w, env, now, true) == (w, Threw)
  {}

  /** An executing, queued or held Run of the Session. */
  ghost predicate Occupied(db: Db, s: SessionId) {
    exists i :: 0 <= i < |db.runs| && db.runs[i].session == s
                && (db.runs[i].state.Executing? || db.runs[i].state.Queued? || db.runs[i].state.Held?)
  }

  /** A new Run behind every other of its Session, its prompt on the timeline, its blob on disk. */
  ghost predicate SubmitOutcome(a: World, b: World, env: Envelope, reply: Reply)
    requires env.SubmitEnvelope?
  {
    var s, r := env.session, |a.db.runs|;
    if s !in a.db.sessions then Refused(a, b, env, reply, UnknownSession)
    else if a.db.sessions[s].archived then Refused(a, b, env, reply, SessionIsArchived)
    else if env.followUp && !Occupied(a.db, s) then Refused(a, b, env, reply, NoExecutingRun)
    else if !env.followUp && Occupied(a.db, s) then Refused(a, b, env, reply, SessionBusy)
    else AcceptsRun(a, b, env, reply)
  }

  /** One Run more, of this Session, behind every other of it. */
  ghost predicate GainsRun(a: Db, b: Db, s: SessionId, prompt: string, state: RunState) {
    && |b.runs| == |a.runs| + 1 && a.runs <= b.runs
    && var run := b.runs[|a.runs|];
       && run.session == s && run.prompt == prompt && run.state == state && run.order >= 1
       && forall q :: 0 <= q < |a.runs| && a.runs[q].session == s ==> a.runs[q].order < run.order
  }

  ghost predicate AcceptsRun(a: World, b: World, env: Envelope, reply: Reply)
    requires env.SubmitEnvelope?
  {
    var s, r := env.session, |a.db.runs|;
    && s in a.db.sessions && GainsRun(a.db, b.db, s, env.prompt, if env.followUp then Queued else Executing)
    && Gains(a.db, b.db, s, r, PromptEntry, env.prompt, None, env.images, true, None)
    && OnlySession(a.db, b.db, s)
    && b.db.sessions[s] == a.db.sessions[s].(resident := true, timelineRevision := a.db.sessions[s].timelineRevision + 1)
    && (env.images.Some? ==> b.disk.live == a.disk.live + {env.images.value})
    && (env.images.None? ==> b.disk.live == a.disk.live)
    && b.disk.quarantined == a.disk.quarantined && b.disk.evidence == a.disk.evidence
    && AcceptedAt(a, b, env, reply, Submitted(r), a.db.sequence)
    && Unpublished(a.db, b.db) && b.db.interactions == a.db.interactions && SameCatalog(a.db, b.db)
  }

  lemma SubmitMeets(w: World, env: Envelope, now: Time)
    requires Inv(w) && env.SubmitEnvelope? && env.commandId !in w.db.receipts
    ensures var (b, reply) := Submit(w, env, now); SubmitOutcome(w, b, env, reply)
  {
    ReadStatesAreOrdered(w);
    var s := env.session;
    assert SessionOccupied(w.db.runs, s) <==> Occupied(w.db, s);
    hide Inv, SessionOccupied, Occupied, AcceptsRun, AcceptedRun;
    if s in w.db.sessions && !w.db.sessions[s].archived && (env.followUp <==> Occupied(w.db, s)) {
      AcceptedRunMeets(w, env);
      SubmitAccepts(w, env, now);
      hide Submit;
    }
  }

  /** What an acceptable prompt inserts. */
  function AcceptedRun(w: World, env: Envelope): (World, Reply)
    requires env.SubmitEnvelope? && env.session in w.db.sessions
  {
    var db, s := w.db, env.session;
    var run := Run(s, NextRunOrder(db.runs, s), env.prompt, if env.followUp then Queued else Executing);
    var ran := AddEntry(db.(runs := db.runs + [run]),
                        NewEntry(db, s, |db.runs|, PromptEntry, env.prompt, None, env.images, true, None));
    Accept(World(PutSession(ran, s, ran.sessions[s].(resident := true)), PublishBlob(w.disk, env.images)),
           env, Submitted(|db.runs|), Here(db))
  }

  lemma SubmitAccepts(w: World, env: Envelope, now: Time)
    requires env.SubmitEnvelope? && env.session in w.db.sessions && env.commandId !in w.db.receipts
    requires !w.db.sessions[env.session].archived && (env.followUp <==> SessionOccupied(w.db.runs, env.session))
    ensures Submit(w, env, now) == AcceptedRun(w, env)
  {
    hide SessionOccupied, NewEntry, NextRunOrder;
  }

  lemma AppendedRunIsLast(db: Db, s: SessionId, prompt: string, state: RunState)
    ensures forall b: Db :: b.runs == db.runs + [Run(s, NextRunOrder(db.runs, s), prompt, state)] ==> GainsRun(db, b, s, prompt, state)
  {
    NextRunOrderBounds(db.runs, s);
    NextRunOrderIsPositive(db.runs, s);
    hide NextRunOrder;
  }

  lemma AcceptedRunMeets(w: World, env: Envelope)
    requires Dense(w.db.entries) && env.SubmitEnvelope? && env.session in w.db.sessions
    ensures var (b, reply) := AcceptedRun(w, env); AcceptsRun(w, b, env, reply)
  {
    var db, s := w.db, env.session;
    var state := if env.followUp then Queued else Executing;
    var run := Run(s, NextRunOrder(db.runs, s), env.prompt, state);
    AppendedRunIsLast(db, s, env.prompt, state);
    hide GainsRun;
    var ran := AddEntry(db.(runs := db.runs + [run]),
                        NewEntry(db, s, |db.runs|, PromptEntry, env.prompt, None, env.images, true, None));
    InsertedGains(db, db.(runs := db.runs + [run]), s, |db.runs|, PromptEntry, env.prompt, None, env.images, true, None);
    var b := AcceptedRun(w, env).0.db;
    ResidentGains(db, ran, b, s, |db.runs|, PromptEntry, env.prompt, env.images);
    hide NextRunOrder, NewEntry, AddEntry, Timeline, Dense, Gains, OnlySession;
  }

  /** Waking a Session whose timeline gained a row, and filing a receipt. */
  lemma ResidentGains(a: Db, ran: Db, b: Db, s: SessionId, r: RunId, kind: EntryKind, text: string, blob: Option<Blob>)
    requires Gains(a, ran, s, r, kind, text, None, blob, true, None) && OnlySession(a, ran, s)
    requires b == ran.(sessions := ran.sessions[s := ran.sessions[s].(resident := true)], receipts := b.receipts)
    ensures Gains(a, b, s, r, kind, text, None, blob, true, None) && OnlySession(a, b, s)
  {}

  lemma {:induction false} NextRunOrderIsPositive(runs: seq<Run>, s: SessionId)
    ensures NextRunOrder(runs, s) >= 1
  {
    if runs != [] {
      NextRunOrderIsPositive(runs[..|runs| - 1], s);
    }
  }

  /** The Run executes in this Session, under the active generation, at the revision the caller saw. */
  ghost predicate IsExactTarget(db: Db, s: SessionId, r: RunId, generation: nat, observed: nat, active: Option<nat>) {
    && s in db.sessions && db.sessions[s].timelineRevision == observed && active == Some(generation)
    && r < |db.runs| && db.runs[r].session == s && db.runs[r].state.Executing?
  }

  ghost predicate SteerOutcome(a: World, b: World, env: Envelope, active: Option<nat>, reply: Reply, now: Time)
    requires env.SteerEnvelope?
  {
    var s := env.session;
    if !IsExactTarget(a.db, s, env.run, env.generation, env.observed, active) then Refused(a, b, env, reply, StaleExecution)
    else
      && Gains(a.db, b.db, s, env.run, SteeringEntry, env.text, None, env.images, true, None)
      && OnlySession(a.db, b.db, s)
      && b.db.sessions[s] == a.db.sessions[s].(timelineRevision := env.observed + 1)
      && (env.images.Some? ==> b.disk.live == a.disk.live + {env.images.value})
      && (env.images.None? ==> b.disk.live == a.disk.live)
      && b.disk.quarantined == a.disk.quarantined && b.disk.evidence == a.disk.evidence
      && AcceptedAt(a, b, env, reply, Steered(|a.db.entries|), b.db.sequence)
      && Sequenced(a.db, b.db, now)
      && b.db.runs == a.db.runs && b.db.interactions == a.db.interactions && SameCatalog(a.db, b.db)
  }

  lemma SteerMeets(w: World, env: Envelope, active: Option<nat>, now: Time)
    requires Inv(w) && env.SteerEnvelope? && env.commandId !in w.db.receipts
    ensures var (b, reply) := Steer(w, env, active, now); SteerOutcome(w, b, env, active, reply, now)
  {
    NextEntryOrderIsCount(w.db.entries, env.session);
    hide Inv, NextEntryOrder, Timeline, Dense;
  }

  /** Every Run that waited in the Session is cancelled, the target is being cancelled, and no other Run moved. */
  ghost predicate StopsRuns(a: Db, b: Db, s: SessionId, target: RunId) {
    && |b.runs| == |a.runs| && target < |a.runs|
    && b.runs[target] == a.runs[target].(state := Cancelling)
    && forall q :: 0 <= q < |a.runs| && q != target ==>
         b.runs[q] == if a.runs[q].session == s && (a.runs[q].state.Queued? || a.runs[q].state.Held?)
                      then a.runs[q].(state := Cancelled) else a.runs[q]
  }

  /** No interaction of the target is open any more, and no other changed. */
  ghost predicate WithdrawsFrom(a: Db, b: Db, target: RunId) {
    && |b.interactions| == |a.interactions|
    && forall i :: 0 <= i < |a.interactions| ==>
         b.interactions[i] == if a.interactions[i].run == target && (a.interactions[i].state.Open? || a.interactions[i].state.Resolving?)
                              then a.interactions[i].(state := Withdrawn, revision := a.interactions[i].revision + 1)
                              else a.interactions[i]
  }

  /** An accepted stop, or a refusal that leaves no receipt. */
  ghost predicate StopOutcome(a: World, b: World, env: Envelope, active: Option<nat>, reply: Reply, now: Time)
    requires env.StopEnvelope?
  {
    var s := env.session;
    if !IsExactTarget(a.db, s, env.run, env.generation, env.observed, active) then
      reply == Fresh(Rejected(StaleExecution, Position(a.db.epoch, a.db.sequence))) && b == a
    else
      && StopsRuns(a.db, b.db, s, env.run) && WithdrawsFrom(a.db, b.db, env.run)
      && Gains(a.db, b.db, s, env.run, LifecycleEntry, CANCELLATION_REQUESTED, None, None, true, None)
      && OnlySession(a.db, b.db, s)
      && b.db.sessions[s] == a.db.sessions[s].(timelineRevision := env.observed + 1)
      && AcceptedAt(a, b, env, reply, Stopped(env.run, |a.db.entries|), b.db.sequence)
      && Sequenced(a.db, b.db, now) && SameCatalog(a.db, b.db) && b.disk == a.disk
  }

  lemma StopMeets(w: World, env: Envelope, active: Option<nat>, now: Time)
    requires Inv(w) && env.StopEnvelope? && env.commandId !in w.db.receipts
    ensures var (b, reply) := Stop(w, env, active, now); StopOutcome(w, b, env, active, reply, now)
  {
    NextEntryOrderIsCount(w.db.entries, env.session);
    hide Inv, NextEntryOrder, Timeline, Dense;
  }

  /**
   After an accepted stop nothing of the Session waits: the target is being cancelled, none of its interactions
   is open, and each Run that was queued or held is cancelled.
   */
  lemma StoppedSessionWaitsForNothing(a: World, b: World, env: Envelope, active: Option<nat>, reply: Reply, now: Time)
    requires env.StopEnvelope? && StopOutcome(a, b, env, active, reply, now)
    requires reply.Fresh? && reply.outcome.Accepted?
    ensures env.run < |b.db.runs| && b.db.runs[env.run].state.Cancelling?
    ensures forall q :: 0 <= q < |b.db.runs| && b.db.runs[q].session == env.session
              ==> !b.db.runs[q].state.Queued? && !b.db.runs[q].state.Held?
    ensures forall i :: 0 <= i < |b.db.interactions| && b.db.interactions[i].run == env.run ==> !b.db.interactions[i].state.Active()
  {}

  // ---------------------------------------------------------------- settlements

  /** The Run has its final state and its row, and its Session is unread. */
  ghost predicate SettlesRun(a: Db, b: Db, r: RunId, outcome: RunState, text: string, checkpoint: Option<string>, now: Time) {
    && r < |a.runs| && OnlyRunMoves(a, b, r) && b.runs[r] == a.runs[r].(state := outcome)
    && var s := a.runs[r].session;
       && OnlySession(a, b, s)
       && Gains(a, b, s, r, if outcome.Completed? then ResponseEntry else OutcomeEntry, text, checkpoint, Some(text), true, None)
       && BecomesUnread(a, b, s, now)
       && b.sequence == a.sequence + (if ReadStateOf(a.sessions[s]).unread then 1 else 2) && b.committedAt == now
       && b.interactions == a.interactions && b.receipts == a.receipts && SameCatalog(a, b)
  }

  /** A Run that executes or is being cancelled. */
  ghost predicate Unsettled(db: Db, r: RunId) {
    r < |db.runs| && (db.runs[r].state.Executing? || db.runs[r].state.Cancelling?)
  }

  lemma SettlementMeets(w: World, r: RunId, outcome: RunState, text: string, checkpoint: Option<string>, now: Time, fault: bool)
    requires Inv(w)
    ensures var b := Settle(w, r, outcome, text, checkpoint, now, fault);
            && (if Unsettled(w.db, r) && !fault then SettlesRun(w.db, b.db, r, outcome, text, checkpoint, now) else b.db == w.db)
            && b.disk == w.disk.(live := w.disk.live + {text})
  {
    assert Unsettled(w.db, r) ==> w.db.runs[r].session in w.db.sessions;
    ReadStatesAreOrdered(w);
    hide Inv;
    if Unsettled(w.db, r) && !fault {
      SettledTransactionMeets(w.db, r, outcome, text, checkpoint, now);
    }
    hide SettlesRun, SettleTransaction;
  }

  lemma ReadStatesAreOrdered(w: World)
    requires Inv(w)
    ensures Dense(w.db.entries) && forall s :: s in w.db.sessions ==> w.db.sessions[s].readThrough <= w.db.sessions[s].timelineRevision
  {}

  lemma SettledTransactionMeets(db: Db, r: RunId, outcome: RunState, text: string, checkpoint: Option<string>, now: Time)
    requires Unsettled(db, r) && db.runs[r].session in db.sessions && Dense(db.entries)
    requires db.sessions[db.runs[r].session].readThrough <= db.sessions[db.runs[r].session].timelineRevision
    ensures SettlesRun(db, SettleTransaction(db, r, outcome, text, checkpoint, now), r, outcome, text, checkpoint, now)
  {
    var s := db.runs[r].session;
    var kind := if outcome.Completed? then ResponseEntry else OutcomeEntry;
    InsertedGains(db, db, s, r, kind, text, checkpoint, Some(text), true, None);
    var written := AddEntry(db, NewEntry(db, s, r, kind, text, checkpoint, Some(text), true, None));
    var settled := written.(runs := db.runs[r := db.runs[r].(state := outcome)]);
    MilestoneMakesUnread(db, settled, s, now);
    hide NewEntry, AddEntry, RecordMilestone, Timeline, Dense;
  }

  // ---------------------------------------------------------------- interactions

  /** A known Session and Run, and a correlation not used before in its generation. */
  ghost predicate MayAsk(db: Db, s: SessionId, r: RunId, generation: nat, correlation: nat) {
    && s in db.sessions && r < |db.runs|
    && forall i :: 0 <= i < |db.interactions| ==>
         !(&& db.interactions[i].session == s && db.interactions[i].generation == generation
           && db.interactions[i].correlation == correlation)
  }

  ghost predicate AsksOutcome(a: Db, b: Db, s: SessionId, r: RunId, generation: nat, correlation: nat, message: string, now: Time) {
    if !MayAsk(a, s, r, generation, correlation) then b == a
    else
      && b.interactions == a.interactions + [Interaction(s, r, generation, correlation, Open, 1)]
      && Gains(a, b, s, r, InteractionEntry, message, None, None, true, None)
      && OnlySession(a, b, s) && BecomesUnread(a, b, s, now)
      && b.sequence == a.sequence + (if ReadStateOf(a.sessions[s]).unread then 0 else 1)
      && b.runs == a.runs && b.receipts == a.receipts && SameCatalog(a, b)
  }

  lemma AskingMeets(w: World, s: SessionId, r: RunId, generation: nat, correlation: nat, message: string, now: Time)
    requires Inv(w)
    ensures var b := OpenInteraction(w, s, r, generation, correlation, message, now);
            AsksOutcome(w.db, b.db, s, r, generation, correlation, message, now) && b.disk == w.disk
  {
    ReadStatesAreOrdered(w);
    if s in w.db.sessions {
      var asked := w.db.(interactions := w.db.interactions + [Interaction(s, r, generation, correlation, Open, 1)]);
      InsertedGains(w.db, asked, s, r, InteractionEntry, message, None, None, true, None);
      MilestoneMakesUnread(w.db, AddEntry(asked, NewEntry(w.db, s, r, InteractionEntry, message, None, None, true, None)), s, now);
    }
    hide Inv, NewEntry, AddEntry, RecordMilestone, Timeline, Dense;
  }

  /** One interaction moves to a state at its next revision. */
  ghost predicate MovesInteraction(a: Db, b: Db, i: InteractionId, to: InteractionState) {
    && i < |a.interactions| && b == a.(interactions := b.interactions) && |b.interactions| == |a.interactions|
    && b.interactions[i] == a.interactions[i].(state := to, revision := a.interactions[i].revision + 1)
    && forall j :: 0 <= j < |a.interactions| && j != i ==> b.interactions[j] == a.interactions[j]
  }

  lemma InteractionsMoveMeets(w: World, i: InteractionId, revision: nat, from: InteractionState, to: InteractionState)
    ensures var b := ReserveInteraction(w, i, revision);
            b.disk == w.disk
            && if i < |w.db.interactions| && w.db.interactions[i].state.Open? && w.db.interactions[i].revision == revision
               then MovesInteraction(w.db, b.db, i, Resolving) else b == w
    ensures var b := SettleInteraction(w, i, from, to);
            b.disk == w.disk
            && if i < |w.db.interactions| && w.db.interactions[i].state == from then MovesInteraction(w.db, b.db, i, to) else b == w
  {}

  // ---------------------------------------------------------------- live timelines

  predicate OpenAssistant(db: Db, i: nat, s: SessionId, r: RunId) {
    && i < |db.entries| && db.entries[i].session == s && db.entries[i].run == r
    && db.entries[i].kind.AssistantEntry? && !db.entries[i].finalized
  }

  predicate OpenTool(db: Db, i: nat, s: SessionId, r: RunId, call: string) {
    && i < |db.entries| && db.entries[i].session == s && db.entries[i].run == r
    && db.entries[i].tool == Some(call) && !db.entries[i].finalized
  }

  lemma {:induction false} LastOpenAssistant(db: Db, entries: seq<Entry>, s: SessionId, r: RunId)
    requires entries <= db.entries
    ensures var found := FindOpenAssistant(entries, s, r);
            && (found.Some? ==> OpenAssistant(db, found.value, s, r)
                                && forall i: nat :: found.value < i < |entries| ==> !OpenAssistant(db, i, s, r))
            && (found.None? ==> forall i: nat :: i < |entries| ==> !OpenAssistant(db, i, s, r))
  {
    if entries != [] {
      LastOpenAssistant(db, entries[..|entries| - 1], s, r);
    }
  }

  lemma {:induction false} FirstOpenTool(db: Db, entries: seq<Entry>, s: SessionId, r: RunId, call: string)
    requires entries <= db.entries
    ensures var found := FindOpenTool(entries, s, r, call);
            && (found.Some? ==> OpenTool(db, found.value, s, r, call)
                                && forall i: nat :: i < found.value ==> !OpenTool(db, i, s, r, call))
            && (found.None? ==> forall i: nat :: i < |entries| ==> !OpenTool(db, i, s, r, call))
  {
    if entries != [] {
      FirstOpenTool(db, entries[..|entries| - 1], s, r, call);
    }
  }

  /** A delta is added to the text of the last open assistant row of its Run, or opens one. */
  ghost predicate DeltaOutcome(a: Db, b: Db, s: SessionId, r: RunId, text: string) {
    if forall i: nat :: !OpenAssistant(a, i, s, r) then Gains(a, b, s, r, AssistantEntry, text, None, None, false, None)
    else exists i: nat ::
      && OpenAssistant(a, i, s, r) && (forall j: nat :: i < j ==> !OpenAssistant(a, j, s, r))
      && Rewrites(a, b, i, a.entries[i].text + text, false)
  }

  /** A finished call rewrites and closes the first open row of that call, or adds a closed one. */
  ghost predicate CompletionOutcome(a: Db, b: Db, s: SessionId, r: RunId, call: string, text: string) {
    if forall i: nat :: !OpenTool(a, i, s, r, call) then Gains(a, b, s, r, ToolEntry, text, None, None, true, Some(call))
    else exists i: nat ::
      && OpenTool(a, i, s, r, call) && (forall j: nat :: j < i ==> !OpenTool(a, j, s, r, call))
      && Rewrites(a, b, i, text, true)
  }

  ghost predicate EventOutcome(a: Db, b: Db, s: SessionId, r: RunId, event: TimelineEvent) {
    && OnlyTimeline(a, b, s)
    && match event
       case AssistantDelta(text) => DeltaOutcome(a, b, s, r, text)
       case ToolStarted(call, name) => Gains(a, b, s, r, ToolEntry, name, None, None, false, Some(call))
       case ToolCompleted(call, name, text) => CompletionOutcome(a, b, s, r, call, name + ": " + text)
  }

  /** A row of a Session may be opened or rewritten without anything else moving. */
  lemma InsertedTimeline(db: Db, s: SessionId, r: RunId, kind: EntryKind, text: string, finalized: bool, tool: Option<string>)
    requires Dense(db.entries) && s in db.sessions
    ensures var b := AddEntry(db, NewEntry(db, s, r, kind, text, None, None, finalized, tool));
            Gains(db, b, s, r, kind, text, None, None, finalized, tool) && OnlyTimeline(db, b, s)
  {
    InsertedGains(db, db, s, r, kind, text, None, None, finalized, tool);
    hide NewEntry, AddEntry, Gains, Dense;
  }

  lemma DeltaMeets(w: World, s: SessionId, r: RunId, text: string)
    requires Dense(w.db.entries) && s in w.db.sessions
    ensures var b := ApplyEvent(w, s, r, AssistantDelta(text)).db; OnlyTimeline(w.db, b, s) && DeltaOutcome(w.db, b, s, r, text)
  {
    LastOpenAssistant(w.db, w.db.entries, s, r);
    var found := FindOpenAssistant(w.db.entries, s, r);
    if found.Some? {
      RevisedRewrites(w.db, found.value, w.db.entries[found.value].text + text, false);
    } else {
      InsertedTimeline(w.db, s, r, AssistantEntry, text, false, None);
    }
    hide Dense, FindOpenAssistant, NewEntry, AddEntry, ReviseEntry, Rewrites, Gains, OnlyTimeline;
  }

  lemma CompletionMeets(w: World, s: SessionId, r: RunId, call: string, name: string, text: string)
    requires Dense(w.db.entries) && s in w.db.sessions
    ensures var b := ApplyEvent(w, s, r, ToolCompleted(call, name, text)).db;
            OnlyTimeline(w.db, b, s) && CompletionOutcome(w.db, b, s, r, call, name + ": " + text)
  {
    FirstOpenTool(w.db, w.db.entries, s, r, call);
    var found := FindOpenTool(w.db.entries, s, r, call);
    if found.Some? {
      RevisedRewrites(w.db, found.value, name + ": " + text, true);
    } else {
      InsertedTimeline(w.db, s, r, ToolEntry, name + ": " + text, true, Some(call));
    }
    hide Dense, FindOpenTool, NewEntry, AddEntry, ReviseEntry, Rewrites, Gains, OnlyTimeline;
  }

  /**
   What a runtime fact leaves: a delta is added to the text of the last open assistant row of its Run, and a
   finished call rewrites the first open row of that call; each opens a row of its own if there is none.
   */
  lemma EventMeets(w: World, s: SessionId, r: RunId, event: TimelineEvent)
    requires Inv(w) && s in w.db.sessions
    ensures var b := ApplyEvent(w, s, r, event); EventOutcome(w.db, b.db, s, r, event) && b.disk == w.disk
  {
    ReadStatesAreOrdered(w);
    hide Inv, Dense, DeltaOutcome, CompletionOutcome, OnlyTimeline, Gains, FindOpenAssistant, FindOpenTool;
    match event
    case AssistantDelta(text) => DeltaMeets(w, s, r, text);
    case ToolStarted(call, name) => InsertedTimeline(w.db, s, r, ToolEntry, name, false, Some(call));
    case ToolCompleted(call, name, text) => CompletionMeets(w, s, r, call, name, text);
  }

  /** Finalizing keeps the text of the last open assistant row and closes it. */
  lemma FinalizingMeets(w: World, s: SessionId, r: RunId)
    requires Inv(w) && s in w.db.sessions
    ensures var b := FinalizeAssistant(w, s, r);
            if forall i: nat :: !OpenAssistant(w.db, i, s, r) then b == w
            else
              && OnlyTimeline(w.db, b.db, s) && b.disk == w.disk
              && exists i: nat ::
                   && OpenAssistant(w.db, i, s, r) && (forall j: nat :: i < j ==> !OpenAssistant(w.db, j, s, r))
                   && Rewrites(w.db, b.db, i, w.db.entries[i].text, true)
  {
    LastOpenAssistant(w.db, w.db.entries, s, r);
    hide Inv, FindOpenAssistant, ReviseEntry, Rewrites, OnlyTimeline;
    var found := FindOpenAssistant(w.db.entries, s, r);
    if found.Some? {
      RevisedRewrites(w.db, found.value, w.db.entries[found.value].text, true);
    }
  }

  // ---------------------------------------------------------------- the queue

  /** Only Runs moved, and each of them as this says. */
  ghost predicate MovesRuns(a: Db, b: Db, moved: (RunId, Run) -> RunState) {
    && b == a.(runs := b.runs) && |b.runs| == |a.runs|
    && forall q :: 0 <= q < |a.runs| ==> b.runs[q] == a.runs[q].(state := moved(q, a.runs[q]))
  }

  /** A released Run executes, and every other held Run of its Session is queued again. */
  lemma ReleasingMeets(w: World, r: RunId)
    ensures var b := Release(w, r);
            && b.disk == w.disk
            && if r < |w.db.runs| && w.db.runs[r].state.Held?
                  && forall q :: 0 <= q < |w.db.runs| && w.db.runs[q].session == w.db.runs[r].session ==>
                       && !w.db.runs[q].state.Executing?
                       && ((w.db.runs[q].state.Queued? || w.db.runs[q].state.Held?) ==> w.db.runs[r].order <= w.db.runs[q].order)
               then MovesRuns(w.db, b.db, (q, run: Run) =>
                      if q == r then Executing
                      else if run.session == w.db.runs[r].session && run.state.Held? then Queued else run.state)
               else b == w
  {}

  /** Holding, and cancelling one waiting Run, move nothing else. */
  lemma WaitingMeets(w: World, s: SessionId, r: RunId)
    ensures MovesRuns(w.db, HoldQueued(w, s).db, (q, run: Run) => if run.session == s && run.state.Queued? then Held else run.state)
    ensures MovesRuns(w.db, CancelWaiting(w, r).db,
                      (q, run: Run) => if q == r && (run.state.Queued? || run.state.Held?) then Cancelled else run.state)
    ensures HoldQueued(w, s).disk == CancelWaiting(w, r).disk == w.disk
  {}

  /** A queued Run executes if none of its Session does, and it is the one of lowest order. */
  lemma DispatchMeets(w: World, s: SessionId)
    ensures var b := Dispatch(w, s);
            && b.disk == w.disk
            && if (exists q :: 0 <= q < |w.db.runs| && w.db.runs[q].session == s && w.db.runs[q].state.Executing?)
                  || (forall q :: 0 <= q < |w.db.runs| && w.db.runs[q].session == s ==> !w.db.runs[q].state.Queued?)
               then b == w
               else exists r: RunId ::
                 && r < |w.db.runs| && w.db.runs[r].session == s && w.db.runs[r].state.Queued?
                 && (forall q :: 0 <= q < |w.db.runs| && w.db.runs[q].session == s && w.db.runs[q].state.Queued?
                       ==> w.db.runs[r].order <= w.db.runs[q].order)
                 && MovesRuns(w.db, b.db, (q, run: Run) => if q == r then Executing else run.state)
  {
    var found := FirstQueued(w.db.runs, s);
    hide FirstQueued;
    if found.Some? && !SessionIsExecuting(w.db.runs, s) {
      var b := Dispatch(w, s);
      assert MovesRuns(w.db, b.db, (q, run: Run) => if q == found.value then Executing else run.state);
    }
  }

  // ---------------------------------------------------------------- sessions and epochs

  /** A new project with its first workspace, unless either is known. */
  lemma ProjectMeets(w: World, project: ProjectId, workspace: WorkspaceId, now: Time)
    ensures var b := CreateProject(w, project, workspace, now);
            if project in w.db.projects || workspace in w.db.workspaces then b == w
            else
              && b.db.projects == w.db.projects + {project} && b.db.workspaces == w.db.workspaces[workspace := project]
              && Publishes(w.db, b.db, now, ProjectCreated(project, workspace))
              && b.db.sessions == w.db.sessions && SameRows(w.db, b.db) && b.db.receipts == w.db.receipts
              && b.db.orphans == w.db.orphans && b.db.retained == w.db.retained && b.disk == w.disk
  {}

  /** The Session is new, its project is known, and its workspace is of that project, or is added to it. */
  ghost predicate Creatable(db: Db, s: SessionId, project: Option<ProjectId>, workspace: Option<WorkspaceId>,
                            added: Option<(WorkspaceId, ProjectId)>)
  {
    && s !in db.sessions && (project.Some? ==> project.value in db.projects)
    && if added.Some? then
         project == Some(added.value.1) && (added.value.0 in db.workspaces ==> db.workspaces[added.value.0] == added.value.1)
       else
         workspace.Some? ==> workspace.value in db.workspaces && project == Some(db.workspaces[workspace.value])
  }

  /** A new Session is named as all are, empty, asleep, available and read. */
  lemma CreatingMeets(w: World, s: SessionId, project: Option<ProjectId>, workspace: Option<WorkspaceId>,
                      added: Option<(WorkspaceId, ProjectId)>, now: Time)
    ensures var b := CreateSession(w, s, project, workspace, added, now);
            if !Creatable(w.db, s, project, workspace, added) then b == w
            else
              && OnlySession(w.db, b.db, s)
              && b.db.workspaces == (if added.Some? then w.db.workspaces[added.value.0 := added.value.1] else w.db.workspaces)
              && var row := b.db.sessions[s];
                 && row.name == "Untitled Session" && row.project == project
                 && row.workspace == (if added.Some? then Some(added.value.0) else workspace)
                 && !row.archived && !row.resident && row.parent.None? && row.metadataRevision == 1
                 && row.timelineRevision == 1 && row.milestone.None? && ReadStateOf(row) == ReadState(1, false, 1)
                 && Publishes(w.db, b.db, now, SessionCreated(s, SummaryOf(row)))
                 && SameRows(w.db, b.db) && b.db.projects == w.db.projects && b.db.receipts == w.db.receipts && b.disk == w.disk
  {}

  /** A new epoch begins one sequence on with an empty log. */
  lemma RotationMeets(w: World, now: Time)
    ensures var b := RotateEpoch(w, now);
            b == w.(db := w.db.(epoch := w.db.epoch + 1, sequence := w.db.sequence + 1, committedAt := now, changes := []))
  {}

  /** Sleeping changes residency alone, under the next metadata revision, if the Session has nothing to do. */
  lemma SleepingMeets(w: World, s: SessionId, now: Time)
    ensures var b := Sleep(w, s, now);
            if s in w.db.sessions && w.db.sessions[s].resident && Quiescent(w.db, s) then
              && OnlySession(w.db, b.db, s) && SameRows(w.db, b.db) && SameCatalog(w.db, b.db)
              && b.db.sessions[s] == w.db.sessions[s].(resident := false, metadataRevision := w.db.sessions[s].metadataRevision + 1)
              && Publishes(w.db, b.db, now, ResidencyChanged(s, SummaryOf(b.db.sessions[s])))
              && b.db.receipts == w.db.receipts && b.disk == w.disk
            else b == w
  {}

  /** Losing a worker withdraws what it asked in the Session, holds its queue, and leaves it asleep. */
  lemma WorkerLossMeets(w: World, s: SessionId)
    ensures var b := LoseWorker(w, s);
            && b.disk == w.disk && b.db == w.db.(runs := b.db.runs, interactions := b.db.interactions, sessions := b.db.sessions)
            && |b.db.runs| == |w.db.runs| && |b.db.interactions| == |w.db.interactions|
            && (forall q :: 0 <= q < |w.db.runs| ==>
                  b.db.runs[q] == if w.db.runs[q].session == s && w.db.runs[q].state.Queued?
                                  then w.db.runs[q].(state := Held) else w.db.runs[q])
            && (forall i :: 0 <= i < |w.db.interactions| ==>
                  var was := w.db.interactions[i];
                  b.db.interactions[i] == if was.session == s && (was.state.Open? || was.state.Resolving?)
                                          then was.(state := Withdrawn, revision := was.revision + 1) else was)
            && (if s in w.db.sessions then OnlySession(w.db, b.db, s) && b.db.sessions[s] == w.db.sessions[s].(resident := false)
                else b.db.sessions == w.db.sessions)
  {}

  // ---------------------------------------------------------------- retention

  /** Protected by a reference, or named by a timeline row. */
  ghost predicate Needed(db: Db, b: Blob) {
    b in db.retained || exists i :: 0 <= i < |db.entries| && db.entries[i].blob == Some(b)
  }

  lemma ReferencedIsNeeded(db: Db, b: Blob)
    ensures b in Referenced(db) <==> Needed(db, b)
  {}

  /**
   The decisions of a maintenance pass: a listed blob that is needed again is restored, one that is not and was
   proved earlier is deleted, and a live blob that is neither needed nor listed is quarantined.
   */
  ghost predicate Decides(a: World, moves: Moves, now: Time) {
    && (forall x :: x in moves.restored <==> x in a.db.orphans && Needed(a.db, x))
    && (forall x :: x in moves.deleted <==> x in a.db.orphans && !Needed(a.db, x) && now > a.db.orphans[x])
    && (forall x :: x in moves.quarantined <==> x in a.disk.live && !Needed(a.db, x) && x !in a.db.orphans)
  }

  /** The blobs still listed, each with the time of its first proof. */
  ghost predicate ListsOrphans(a: World, b: Db, now: Time) {
    && (forall x :: x in b.orphans <==>
          !Needed(a.db, x) && ((x in a.db.orphans && now <= a.db.orphans[x]) || (x in a.disk.live && x !in a.db.orphans)))
    && forall x :: x in b.orphans ==> b.orphans[x] == if x in a.db.orphans then a.db.orphans[x] else now
  }

  /** The log lost exactly its rows of more than seven days ago, which come first. */
  ghost predicate DropsExpired(a: Db, b: Db, now: Time) {
    exists dropped: nat ::
      && dropped <= |a.changes| && b.changes == a.changes[dropped..]
      && (forall k :: 0 <= k < |a.changes| ==> (k < dropped <==> a.changes[k].committedAt < now - 604800000))
  }

  /** Files moved as far as the pass came, and only as it decided. */
  ghost predicate MovesFiles(a: Disk, b: Disk, moves: Moves, done: Moves) {
    && done.restored <= moves.restored && done.quarantined <= moves.quarantined && done.deleted <= moves.deleted
    && b.evidence == a.evidence
    && (forall x :: x in b.live <==> (x in a.live && x !in done.quarantined) || (x in done.restored && x in a.quarantined))
    && forall x :: x in b.quarantined <==>
         ((x in a.quarantined && x !in done.restored) || (x in done.quarantined && x in a.live)) && x !in done.deleted
  }

  ghost predicate MaintenanceOutcome(a: World, b: World, now: Time, moves: Moves, done: Moves) {
    && Decides(a, moves, now) && ListsOrphans(a, b.db, now) && DropsExpired(a.db, b.db, now)
    && MovesFiles(a.disk, b.disk, moves, done)
    && b.db == a.db.(changes := b.db.changes, orphans := b.db.orphans)
    && forall x :: Needed(a.db, x) && x in a.disk.live ==> x in b.disk.live
  }

  lemma PlanDecides(w: World, now: Time)
    ensures Decides(w, PlannedMoves(w, now), now)
  {
    forall x: Blob
      ensures x in Referenced(w.db) <==> Needed(w.db, x)
    {
      ReferencedIsNeeded(w.db, x);
    }
    hide Referenced, Needed;
  }

  lemma TransactionLists(w: World, now: Time)
    ensures ListsOrphans(w, MaintenanceTransaction(w, now), now)
  {
    PlanDecides(w, now);
    hide PlannedMoves, Needed, KeepRecent;
  }

  lemma TransactionDrops(w: World, now: Time)
    requires LogOk(w.db)
    ensures DropsExpired(w.db, MaintenanceTransaction(w, now), now)
  {
    var dropped := CompactionDropsPrefix(w.db.changes, now - RETENTION);
    hide PlannedMoves, KeepRecent, LogOk;
  }

  lemma MaintenanceMeets(w: World, now: Time, done: Moves)
    requires Inv(w) && WithinMoves(done, PlannedMoves(w, now))
    ensures MaintenanceOutcome(w, Maintain(w, now, done), now, PlannedMoves(w, now), done)
  {
    LogIsOk(w);
    hide Inv, LogOk;
    PlanDecides(w, now);
    TransactionLists(w, now);
    TransactionDrops(w, now);
    hide PlannedMoves, Needed, ListsOrphans, DropsExpired, KeepRecent;
  }

  lemma LogIsOk(w: World)
    requires Inv(w)
    ensures LogOk(w.db)
  {}
}
