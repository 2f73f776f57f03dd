/**
 The AuthorityStore object: its methods run the statements of each operation in order against the
 database and the artifact directories, and are proved against the operations of AuthorityOperations.
 */
module Authority {
  import opened Options
  import opened AuthorityTables
  import opened AuthorityOperations
  import opened AuthorityInvariants
  import opened AuthoritySteps
  import opened AuthorityTimelineSteps
  import opened AuthorityRunSteps
  import opened AuthorityForkSteps
  import opened AuthorityRetentionSteps
  import opened AuthorityHistory
  import opened AuthorityOutcomes
  import opened AuthorityForkOutcomes
  import opened Settlement

  class AuthorityStore {
    var db: Db
    var disk: Disk

    function State(): World reads this { World(db, disk) }

    ghost predicate Valid() reads this { Inv(World(db, disk)) }

    constructor (now: Time)
      ensures State() == Genesis(now) && Valid()
    {
      db := Genesis(now).db;
      disk := Genesis(now).disk;
      new;
      GenesisIsGood(now);
    }

    // -------------------------------------------------------------- shared statements

    method BumpSequence(now: Time)
      modifies this`db
      ensures db == Bump(old(db), now)
    {
      db := db.(sequence := db.sequence + 1, committedAt := now);
    }

    method RecordSynchronizationChange(change: Change)
      modifies this`db
      ensures db == Record(old(db), change)
    {
      db := db.(changes := db.changes + [Logged(db.sequence, db.committedAt, change)]);
    }

    method UpdateSession(s: SessionId, row: Session)
      modifies this`db
      ensures db == PutSession(old(db), s, row)
    {
      db := db.(sessions := db.sessions[s := row]);
    }

    /** The tail of a published change: the Session row, the Host's sequence, then the change. */
    method CommitSession(s: SessionId, row: Session, now: Time, change: Change)
      modifies this`db
      ensures db == Record(Bump(PutSession(old(db), s, row), now), change)
    {
      UpdateSession(s, row);
      BumpSequence(now);
      RecordSynchronizationChange(change);
    }

    method InsertCommandReceipt(env: Envelope, outcome: Outcome)
      modifies this`db
      ensures db == File(old(db), env, outcome)
    {
      db := db.(receipts := db.receipts[env.commandId := Receipt(env, outcome)]);
    }

    /** Answers a command with a rejection and files it. */
    method RejectCommand(env: Envelope, error: Refusal) returns (reply: Reply)
      modifies this`db
      ensures (State(), reply) == Reject(old(State()), env, error)
    {
      var outcome := Rejected(error, Here(db));
      InsertCommandReceipt(env, outcome);
      reply := Fresh(outcome);
    }

    method AcceptCommand(env: Envelope, effect: Effect, position: Position) returns (reply: Reply)
      modifies this`db
      ensures (State(), reply) == Accept(old(State()), env, effect, position)
    {
      var outcome := Accepted(effect, position);
      InsertCommandReceipt(env, outcome);
      reply := Fresh(outcome);
    }

    /** INSERT INTO timeline_entries, then UPDATE sessions SET timeline_revision + 1. */
    method InsertEntry(e: Entry)
      requires e.session in db.sessions
      modifies this`db
      ensures db == AddEntry(old(db), e)
    {
      db := db.(entries := db.entries + [e]);
      var row := db.sessions[e.session];
      UpdateSession(e.session, row.(timelineRevision := row.timelineRevision + 1));
    }

    /** UPDATE timeline_entries SET revision + 1, then UPDATE sessions SET timeline_revision + 1. */
    method UpdateEntry(i: EntryId, text: string, finalized: bool)
      requires i < |db.entries| && db.entries[i].session in db.sessions
      modifies this`db
      ensures db == ReviseEntry(old(db), i, text, finalized)
    {
      var e := db.entries[i];
      db := db.(entries := db.entries[i := e.(text := text, revision := e.revision + 1, finalized := finalized)]);
      var row := db.sessions[e.session];
      UpdateSession(e.session, row.(timelineRevision := row.timelineRevision + 1));
    }

    /** Afterwards the Session is unread if anything is beyond its read position; the log tells only of news. */
    method RecordUnreadMilestone(s: SessionId, now: Time)
      requires s in db.sessions
      modifies this`db
      ensures db == RecordMilestone(old(db), s, now)
      ensures s in db.sessions
      ensures ReadStateOf(db.sessions[s]).unread <==> db.sessions[s].readThrough < db.sessions[s].timelineRevision
      ensures var known := ReadStateOf(old(db).sessions[s]).unread;
              if known then db.changes == old(db).changes && ReadStateOf(db.sessions[s]).revision == ReadStateOf(old(db).sessions[s]).revision
              else db.changes == old(db).changes + [Logged(db.sequence, now, ReadStateChanged(s, ReadStateOf(db.sessions[s])))]
                   && db.sequence > old(db).sequence
                   && ReadStateOf(db.sessions[s]).revision > ReadStateOf(old(db).sessions[s]).revision
    {
      var row := db.sessions[s];
      var wasUnread := ReadStateOf(row).unread;
      var next := row.(milestone := Some(row.timelineRevision),
                       readRevision := row.readRevision + if wasUnread then 0 else 1);
      if wasUnread {
        UpdateSession(s, next);
      } else {
        CommitSession(s, next, now, ReadStateChanged(s, ReadStateOf(next)));
      }
    }

    method Publish(blob: Option<Blob>)
      modifies this`disk
      ensures disk == PublishBlob(old(disk), blob)
    {
      if blob.Some? {
        disk := disk.(live := disk.live + {blob.value});
      }
    }

    // -------------------------------------------------------------- sessions

    method CreateProject(project: ProjectId, workspace: WorkspaceId, now: Time) returns (created: bool)
      requires Valid() && db.committedAt <= now
      modifies this`db
      ensures State() == AuthorityOperations.CreateProject(old(State()), project, workspace, now) && Valid()
      ensures created <==> project !in old(db.projects) && workspace !in old(db.workspaces)
    {
      hide Inv, Step;
      assert Inv(AuthorityOperations.CreateProject(State(), project, workspace, now)) by {
        CreateProjectStep(State(), project, workspace, now);
      }
      if project in db.projects || workspace in db.workspaces {
        return false;
      }
      db := db.(projects := db.projects + {project}, workspaces := db.workspaces[workspace := project]);
      BumpSequence(now);
      RecordSynchronizationChange(ProjectCreated(project, workspace));
      created := true;
    }

    method CreateSession(s: SessionId, project: Option<ProjectId>, workspace: Option<WorkspaceId>,
                         added: Option<(WorkspaceId, ProjectId)>, now: Time) returns (created: bool)
      requires Valid() && db.committedAt <= now
      modifies this`db
      ensures State() == AuthorityOperations.CreateSession(old(State()), s, project, workspace, added, now) && Valid()
      ensures created ==> s in db.sessions && s !in old(db.sessions)
      ensures !created ==> State() == old(State())
    {
      hide Inv, Step;
      assert Inv(AuthorityOperations.CreateSession(State(), s, project, workspace, added, now)) by {
        CreateSessionStep(State(), s, project, workspace, added, now);
      }
      var begun := db;
      if added.Some? {
        if WorkspaceConflicts(db, added) {
          return false;
        }
        db := WithWorkspace(db, added);
      }
      var scope := if added.Some? then Some(added.value.0) else workspace;
      if !ScopeIsValid(db, project, scope) || s in db.sessions {
        db := begun;
        return false;
      }
      var row := NewSession(project, scope);
      CommitSession(s, row, now, SessionCreated(s, SummaryOf(row)));
      created := true;
    }

    method RenameSession(env: Envelope, now: Time) returns (reply: Reply)
      requires Valid() && db.committedAt <= now && env.RenameEnvelope?
      modifies this`db
      ensures (State(), reply) == Rename(old(State()), env, now) && Valid()
      ensures env.commandId !in old(db.receipts) ==> RenameOutcome(old(State()), State(), env, reply, now)
    {
      ghost var was := State();
      if env.commandId !in db.receipts {
        RenameMeets(was, env, now);
      }
      hide RenameOutcome;
      hide Inv, Step;
      assert Inv(Rename(State(), env, now).0) by {
        RenameStep(State(), env, now);
      }
      if Received(db, env) {
        reply := Repeat(db, env);
      } else if env.session !in db.sessions {
        reply := RejectCommand(env, UnknownSession);
      } else if db.sessions[env.session].metadataRevision != env.observed {
        reply := RejectCommand(env, StalePrecondition);
      } else {
        var row := db.sessions[env.session];
        var next := row.(name := env.name, metadataRevision := row.metadataRevision + 1);
        var summary := SummaryOf(next);
        CommitSession(env.session, next, now, SessionRenamed(env.session, summary));
        reply := AcceptCommand(env, Renamed(summary), Here(db));
      }
    }

    method ChangeSessionAvailability(env: Envelope, now: Time) returns (reply: Reply)
      requires Valid() && db.committedAt <= now && env.AvailabilityEnvelope?
      modifies this`db
      ensures (State(), reply) == ChangeAvailability(old(State()), env, now) && Valid()
      ensures env.commandId !in old(db.receipts) ==> AvailabilityOutcome(old(State()), State(), env, reply, now)
    {
      ghost var was := State();
      ghost var (after, answer) := ChangeAvailability(was, env, now);
      hide AvailabilityOutcome;
      assert env.commandId !in db.receipts ==> AvailabilityOutcome(was, after, env, answer, now) by {
        if env.commandId !in db.receipts {
          AvailabilityMeets(was, env, now);
        }
      }
      hide Inv, Step;
      assert Inv(ChangeAvailability(State(), env, now).0) by { ChangeAvailabilityStep(State(), env, now); }
      hide Inv, SessionHasActiveWork, SummaryOf, Repeat;
      if Received(db, env) {
        reply := Repeat(db, env);
      } else if env.session !in db.sessions {
        reply := RejectCommand(env, UnknownSession);
      } else if db.sessions[env.session].metadataRevision != env.observed {
        reply := RejectCommand(env, StalePrecondition);
      } else if db.sessions[env.session].archived == env.archive {
        reply := RejectCommand(env, if env.archive then AlreadyArchived else NotArchived);
      } else if env.archive && SessionHasActiveWork(db, env.session) {
        reply := RejectCommand(env, SessionNotQuiescent);
      } else {
        var row := db.sessions[env.session];
        var next := row.(archived := env.archive, resident := false, metadataRevision := row.metadataRevision + 1);
        var summary := SummaryOf(next);
        CommitSession(env.session, next, now,
                      if env.archive then SessionArchived(env.session, summary)
                      else SessionRestored(env.session, summary));
        reply := AcceptCommand(env, AvailabilityChanged(summary), Here(db));
      }
    }

    method MarkSessionRead(env: Envelope, now: Time, fault: bool) returns (reply: Reply)
      requires Valid() && db.committedAt <= now && env.MarkReadEnvelope?
      modifies this`db
      ensures (State(), reply) == MarkRead(old(State()), env, now, fault) && Valid()
      ensures env.commandId !in old(db.receipts) ==>
                if fault then State() == old(State()) && reply == Threw else MarkReadOutcome(old(State()), State(), env, reply, now)
    {
      if env.commandId !in db.receipts {
        MarkReadMeets(State(), env, now);
      }
      hide MarkReadOutcome;
      assert Inv(MarkRead(State(), env, now, fault).0) by {
        MarkReadStep(State(), env, now, fault);
      }
      var begun := db;
      if Received(db, env) {
        reply := Repeat(db, env);
        return;
      }
      if env.session !in db.sessions {
        reply := RejectCommand(env, UnknownSession);
      } else {
        var row := db.sessions[env.session];
        if env.presented < 1 || env.presented > row.timelineRevision {
          reply := RejectCommand(env, InvalidRevision);
        } else if env.presented <= row.readThrough {
          reply := AcceptCommand(env, MarkedRead(false, ReadStateOf(row)), Here(db));
        } else {
          var next := row.(readThrough := env.presented, readRevision := row.readRevision + 1);
          var readState := ReadStateOf(next);
          CommitSession(env.session, next, now, ReadStateChanged(env.session, readState));
          reply := AcceptCommand(env, MarkedRead(true, readState), Here(db));
        }
      }
      if fault {
        db := begun;
        reply := Threw;
      }
    }

    method SetSessionSleeping(s: SessionId, now: Time)
      requires Valid() && db.committedAt <= now
      modifies this`db
      ensures State() == Sleep(old(State()), s, now) && Valid()
    {
      hide Inv, Step;
      assert Inv(Sleep(State(), s, now)) by {
        SleepStep(State(), s, now);
      }
      if s in db.sessions && db.sessions[s].resident && !SessionHasActiveWork(db, s) {
        var row := db.sessions[s];
        var next := row.(resident := false, metadataRevision := row.metadataRevision + 1);
        CommitSession(s, next, now, ResidencyChanged(s, SummaryOf(next)));
      }
    }

    // -------------------------------------------------------------- forks

    /** Inserts the child's copies of the finished Runs the copied rows name. */
    method InsertChildRuns(parent: SessionId, rows: seq<Entry>, child: SessionId) returns (ids: seq<RunId>)
      modifies this`db
      ensures ids == CopiedRuns(old(db.runs), parent, rows)
      ensures forall k :: 0 <= k < |ids| ==> ids[k] < |old(db.runs)|
      ensures db == old(db).(runs := old(db.runs) + ChildRuns(old(db.runs), ids, child))
    {
      var table := db.runs;
      ids := [];
      for r := 0 to |table|
        invariant ids == CopiedRuns(table[..r], parent, rows)
        invariant forall k :: 0 <= k < |ids| ==> ids[k] < |table|
        invariant db == old(db).(runs := table + ChildRuns(table, ids, child))
      {
        assert table[..r + 1][..r] == table[..r];
        if table[r].session == parent && table[r].state.Terminal()
           && exists k :: 0 <= k < |rows| && rows[k].run == r {
          db := db.(runs := db.runs + [table[r].(session := child)]);
          assert ChildRuns(table, ids + [r], child) == ChildRuns(table, ids, child) + [table[r].(session := child)];
          ids := ids + [r];
        }
      }
      assert table[..|table|] == table;
    }

    /** Inserts the child's copies of the rows, or stops at the first that cannot be copied. */
    method InsertChildEntries(rows: seq<Entry>, ids: seq<RunId>, base: RunId, child: SessionId,
                              point: nat, checkpoint: string) returns (copied: bool)
      modifies this`db
      ensures copied == Copyable(rows, ids)
      ensures copied ==> db == old(db).(entries := old(db.entries) + ChildEntries(rows, ids, base, child, point, checkpoint))
    {
      for k := 0 to |rows|
        invariant Copyable(rows[..k], ids)
        invariant db == old(db).(entries := old(db.entries)
                                             + ChildEntries(rows[..k], ids, base, child, point, checkpoint))
      {
        var row := rows[k];
        var run := IndexOf(ids, row.run);
        if run.None? || !row.finalized {
          return false;
        }
        var copy := row.(session := child, run := base + run.value,
                         checkpoint := if row.order == point then Some(checkpoint) else row.checkpoint);
        db := db.(entries := db.entries + [copy]);
        assert Copyable(rows[..k + 1], ids);
        assert ChildEntries(rows[..k + 1], ids, base, child, point, checkpoint)
            == ChildEntries(rows[..k], ids, base, child, point, checkpoint) + [copy];
      }
      assert rows[..|rows|] == rows;
      copied := true;
    }

    /**
     The inserts of a fork: the child Session, its Runs, its rows, then the revisions the rows give it.
     Stops at a row that cannot be copied, and leaves the rollback to its caller.
     */
    method InsertFork(parent: SessionId, child: SessionId, row: Session, rows: seq<Entry>,
                      point: nat, checkpoint: string)
      returns (copied: bool, next: Session)
      modifies this`db
      ensures copied == Copyable(rows, CopiedRuns(old(db.runs), parent, rows))
      ensures forall k :: 0 <= k < |CopiedRuns(old(db.runs), parent, rows)|
                ==> CopiedRuns(old(db.runs), parent, rows)[k] < |old(db.runs)|
      ensures copied ==>
                var ids := CopiedRuns(old(db.runs), parent, rows);
                var copies := ChildEntries(rows, ids, |old(db.runs)|, child, point, checkpoint);
                && next == row.(timelineRevision := |copies| + 1, readThrough := |copies| + 1,
                                milestone := LastMilestone(copies))
                && db == PutSession(old(db).(runs := old(db.runs) + ChildRuns(old(db.runs), ids, child),
                                             entries := old(db.entries) + copies), child, next)
    {
      hide CopiedRuns, Copyable, ChildRuns, ChildEntries, LastMilestone;
      next := row;
      var base, count := |db.runs|, |db.entries|;
      UpdateSession(child, row);
      var ids := InsertChildRuns(parent, rows, child);
      copied := InsertChildEntries(rows, ids, base, child, point, checkpoint);
      if copied {
        var copies := db.entries[count..];
        next := row.(timelineRevision := |copies| + 1, readThrough := |copies| + 1, milestone := LastMilestone(copies));
        UpdateSession(child, next);
      }
    }

    /** The transaction of a fork. */
    method CommitFork(parent: SessionId, point: EntryId,
                       project: Option<Option<ProjectId>>, workspace: Option<Option<WorkspaceId>>,
                       child: SessionId, parentCheckpoint: string, childCheckpoint: string, now: Time)
      returns (forked: bool)
      requires Valid() && db.committedAt <= now
      modifies this`db
      ensures State() == Fork(old(State()), parent, point, project, workspace, child, parentCheckpoint, childCheckpoint, now)
      ensures Valid()
      ensures forked ==> child in db.sessions && child !in old(db.sessions)
      ensures !forked ==> State() == old(State())
    {
      hide Inv, Step, Timeline, UpTo, CopiedRuns, ChildRuns, ChildEntries, Copyable, LastMilestone, SummaryOf, ScopeIsValid;
      assert Inv(Fork(State(), parent, point, project, workspace, child, parentCheckpoint, childCheckpoint, now)) by {
        ForkStep(State(), parent, point, project, workspace, child, parentCheckpoint, childCheckpoint, now);
      }
      var begun := db;
      if !ForkPointIsValid(db, parent, point, parentCheckpoint, childCheckpoint) {
        return false;
      }
      var targetProject := if project.None? then db.sessions[parent].project else project.value;
      var targetWorkspace := if workspace.None? then db.sessions[parent].workspace else workspace.value;
      if !ScopeIsValid(db, targetProject, targetWorkspace) || child in db.sessions {
        return false;
      }
      var order := db.entries[point].order;
      var rows := UpTo(Timeline(db.entries, parent), order);
      var row := NewSession(targetProject, targetWorkspace).(parent := Some((parent, point)));
      var copied, next := InsertFork(parent, child, row, rows, order, childCheckpoint);
      if !copied {
        db := begun;
        return false;
      }
      BumpSequence(now);
      RecordSynchronizationChange(SessionForked(child, SummaryOf(next)));
      forked := true;
    }

    /** A fork happens exactly if it may; the child then has the parent's timeline up to the point. */
    method ForkSession(parent: SessionId, point: EntryId,
                       project: Option<Option<ProjectId>>, workspace: Option<Option<WorkspaceId>>,
                       child: SessionId, parentCheckpoint: string, childCheckpoint: string, now: Time)
      returns (forked: bool)
      requires Valid() && db.committedAt <= now
      modifies this`db
      ensures State() == Fork(old(State()), parent, point, project, workspace, child, parentCheckpoint, childCheckpoint, now)
      ensures Valid()
      ensures forked <==> Forkable(old(db), parent, point, project, workspace, child, parentCheckpoint, childCheckpoint)
      ensures if forked then ForkOutcome(old(db), db, parent, point, project, workspace, child, childCheckpoint, now)
              else State() == old(State())
    {
      ForkMeets(State(), parent, point, project, workspace, child, parentCheckpoint, childCheckpoint, now);
      hide Inv, Fork;
      forked := CommitFork(parent, point, project, workspace, child, parentCheckpoint, childCheckpoint, now);
    }

    // -------------------------------------------------------------- accepting runs

    method SubmitRun(env: Envelope, now: Time) returns (reply: Reply)
      requires Valid() && env.SubmitEnvelope?
      modifies this
      ensures (State(), reply) == Submit(old(State()), env, now) && Valid()
      ensures env.commandId !in old(db.receipts) ==> SubmitOutcome(old(State()), State(), env, reply)
    {
      if env.commandId !in db.receipts {
        SubmitMeets(State(), env, now);
      }
      hide SubmitOutcome;
      hide Inv, Step, NextRunOrder, NextEntryOrder, SessionOccupied, Repeat;
      assert Inv(Submit(State(), env, now).0) by {
        SubmitStep(State(), env, now);
      }
      var s := env.session;
      if Received(db, env) {
        reply := Repeat(db, env);
      } else if s !in db.sessions {
        reply := RejectCommand(env, UnknownSession);
      } else if db.sessions[s].archived {
        reply := RejectCommand(env, SessionIsArchived);
      } else {
        var occupied := SessionOccupied(db.runs, s);
        if env.followUp && !occupied {
          reply := RejectCommand(env, NoExecutingRun);
        } else if !env.followUp && occupied {
          reply := RejectCommand(env, SessionBusy);
        } else {
          reply := AcceptRun(env);
        }
      }
    }

    /** The inserts of an accepted Run: its input blob, the Run, its prompt, then its receipt. */
    method AcceptRun(env: Envelope) returns (reply: Reply)
      requires env.SubmitEnvelope? && env.session in db.sessions
      modifies this
      ensures var was := old(State());
              var run := Run(env.session, NextRunOrder(was.db.runs, env.session), env.prompt,
                             if env.followUp then Queued else Executing);
              var e := NewEntry(was.db, env.session, |was.db.runs|, PromptEntry, env.prompt, None, env.images, true, None);
              var ran := AddEntry(was.db.(runs := was.db.runs + [run]), e);
              var next := PutSession(ran, env.session, ran.sessions[env.session].(resident := true));
              (State(), reply) == Accept(World(next, PublishBlob(was.disk, env.images)), env, Submitted(|was.db.runs|), Here(was.db))
    {
      hide NextRunOrder, NextEntryOrder;
      var cursor := Here(db);
      var r := |db.runs|;
      var run := Run(env.session, NextRunOrder(db.runs, env.session), env.prompt,
                     if env.followUp then Queued else Executing);
      Publish(env.images);
      db := db.(runs := db.runs + [run]);
      InsertEntry(NewEntry(db, env.session, r, PromptEntry, env.prompt, None, env.images, true, None));
      UpdateSession(env.session, db.sessions[env.session].(resident := true));
      reply := AcceptCommand(env, Submitted(r), cursor);
    }

    method AcceptSteering(env: Envelope, active: Option<nat>, now: Time) returns (reply: Reply)
      requires Valid() && db.committedAt <= now && env.SteerEnvelope?
      modifies this
      ensures (State(), reply) == Steer(old(State()), env, active, now) && Valid()
      ensures env.commandId !in old(db.receipts) ==> SteerOutcome(old(State()), State(), env, active, reply, now)
    {
      if env.commandId !in db.receipts {
        SteerMeets(State(), env, active, now);
      }
      hide SteerOutcome;
      hide Inv, Step, NextEntryOrder, Repeat;
      assert Inv(Steer(State(), env, active, now).0) by {
        SteerStep(State(), env, active, now);
      }
      if Received(db, env) {
        reply := Repeat(db, env);
      } else if !TargetsActiveExecution(db, env.session, env.run, env.generation, env.observed, active) {
        reply := RejectCommand(env, StaleExecution);
      } else {
        var entry := |db.entries|;
        Publish(env.images);
        InsertEntry(NewEntry(db, env.session, env.run, SteeringEntry, env.text, None, env.images, true, None));
        BumpSequence(now);
        reply := AcceptCommand(env, Steered(entry), Here(db));
      }
    }

    /** UPDATE runs SET state = 'cancelled' WHERE session_id = s AND state IN ('queued','held'). */
    method CancelWaitingRuns(s: SessionId)
      modifies this`db
      ensures db == old(db).(runs := CancelWaitingRows(old(db.runs), s))
    {
      var table := db.runs;
      for r := 0 to |table|
        invariant |db.runs| == |table| && db == old(db).(runs := db.runs)
        invariant forall q :: 0 <= q < r ==> db.runs[q] == CancelWaitingRows(table, s)[q]
        invariant forall q :: r <= q < |table| ==> db.runs[q] == table[q]
      {
        var run := db.runs[r];
        if run.session == s && (run.state.Queued? || run.state.Held?) {
          db := db.(runs := db.runs[r := run.(state := Cancelled)]);
        }
      }
      assert db.runs == CancelWaitingRows(table, s);
    }

    /** UPDATE interactions SET state = 'withdrawn' WHERE run_id = r AND state IN ('open','resolving'). */
    method WithdrawInteractionsOf(r: RunId)
      modifies this`db
      ensures db == old(db).(interactions := WithdrawRunInteractions(old(db.interactions), r))
    {
      var table := db.interactions;
      for i := 0 to |table|
        invariant |db.interactions| == |table| && db == old(db).(interactions := db.interactions)
        invariant forall q :: 0 <= q < i ==> db.interactions[q] == WithdrawRunInteractions(table, r)[q]
        invariant forall q :: i <= q < |table| ==> db.interactions[q] == table[q]
      {
        var row := db.interactions[i];
        if row.run == r && row.state.Active() {
          db := db.(interactions := db.interactions[i := row.(state := Withdrawn, revision := row.revision + 1)]);
        }
      }
      assert db.interactions == WithdrawRunInteractions(table, r);
    }

    method AcceptStop(env: Envelope, active: Option<nat>, now: Time) returns (reply: Reply)
      requires Valid() && db.committedAt <= now && env.StopEnvelope?
      modifies this`db
      ensures (State(), reply) == Stop(old(State()), env, active, now) && Valid()
      ensures env.commandId !in old(db.receipts) ==> StopOutcome(old(State()), State(), env, active, reply, now)
    {
      if env.commandId !in db.receipts {
        StopMeets(State(), env, active, now);
      }
      hide StopOutcome;
      hide Inv, Step, NextEntryOrder, CancelWaitingRows, WithdrawRunInteractions, Repeat;
      assert Inv(Stop(State(), env, active, now).0) by {
        StopStep(State(), env, active, now);
      }
      if Received(db, env) {
        reply := Repeat(db, env);
      } else if !TargetsActiveExecution(db, env.session, env.run, env.generation, env.observed, active) {
        reply := Fresh(Rejected(StaleExecution, Here(db)));
      } else {
        var entry := |db.entries|;
        db := db.(runs := db.runs[env.run := db.runs[env.run].(state := Cancelling)]);
        CancelWaitingRuns(env.session);
        WithdrawInteractionsOf(env.run);
        InsertEntry(NewEntry(db, env.session, env.run, LifecycleEntry, CANCELLATION_REQUESTED, None, None, true, None));
        BumpSequence(now);
        reply := AcceptCommand(env, Stopped(env.run, entry), Here(db));
      }
    }

    // -------------------------------------------------------------- settlement and recovery

    /** The statements between BEGIN and COMMIT of settleRun. */
    method WriteSettlement(r: RunId, outcome: RunState, text: string, checkpoint: Option<string>, now: Time)
      requires Settleable(db, r)
      modifies this`db
      ensures db == SettleTransaction(old(db), r, outcome, text, checkpoint, now)
      ensures db.committedAt == now && |db.runs| == |old(db.runs)|
    {
      hide NextEntryOrder;
      var s := db.runs[r].session;
      InsertEntry(NewEntry(db, s, r, if outcome.Completed? then ResponseEntry else OutcomeEntry,
                           text, checkpoint, Some(text), true, None));
      db := db.(runs := db.runs[r := db.runs[r].(state := outcome)]);
      RecordUnreadMilestone(s, now);
      BumpSequence(now);
    }

    method SettleRun(r: RunId, outcome: RunState, text: string, checkpoint: Option<string>, now: Time, fate: Fate)
      returns (signal: Signal)
      requires Valid() && db.committedAt <= now && outcome.Terminal()
      modifies this
      ensures (State(), signal) == SettleWith(old(State()), r, outcome, text, checkpoint, now, fate)
      ensures if Unsettled(old(db), r) && (fate.Commits? || fate.CrashesAfter?)
              then SettlesRun(old(db), db, r, outcome, text, checkpoint, now) else db == old(db)
      ensures disk == old(disk).(live := old(disk).live + {text})
      ensures Valid() && db.committedAt <= now && |db.runs| == |old(db.runs)|
    {
      ghost var was := State();
      hide Inv, Step, SettleTransaction;
      SettlementMeets(was, r, outcome, text, checkpoint, now, false);
      SettlementMeets(was, r, outcome, text, checkpoint, now, true);
      UnsettledIsSettleable(was, r);
      hide SettlesRun;
      assert Inv(Settle(was, r, outcome, text, checkpoint, now, false)) by {
        SettleStep(was, r, outcome, text, checkpoint, now, false);
      }
      assert Inv(Settle(was, r, outcome, text, checkpoint, now, true)) by {
        SettleStep(was, r, outcome, text, checkpoint, now, true);
      }
      var begun := db;
      Publish(Some(text));
      if fate.CrashesBefore? {
        return Crashed;
      }
      if !Settleable(db, r) {
        return Raised;
      }
      WriteSettlement(r, outcome, text, checkpoint, now);
      if fate.Faults? {
        db := begun;
        return Raised;
      }
      signal := if fate.Commits? then Done else Crashed;
    }

    method CompleteRun(r: RunId, text: string, checkpoint: string, now: Time,
                       staged: bool, fate: Fate, removal: Removal) returns (signal: Signal)
      requires Valid() && db.committedAt <= now
      modifies this
      ensures (State(), signal) == Settlement.CompleteRun(old(State()), r, text, checkpoint, now, staged, fate, removal)
      ensures Valid()
    {
      if !staged {
        return Crashed;
      }
      if checkpoint == "" || (r in disk.evidence && disk.evidence[r] != Evidence.Valid(text, checkpoint)) {
        return Raised;
      }
      StageCompletionEvidence(r, text, checkpoint);
      signal := SettleRun(r, Completed, text, Some(checkpoint), now, fate);
      if signal.Done? {
        match removal
        case Removes =>
          RemoveCompletionEvidence(r);
        case RemovalThrows =>
          signal := Raised;
        case CrashesAtRemoval =>
          signal := Crashed;
      }
    }

    method StageCompletionEvidence(r: RunId, text: string, checkpoint: string)
      requires Valid()
      modifies this`disk
      ensures State() == StageEvidence(old(State()), r, text, checkpoint) && Valid()
    {
      EvidenceStep(State(), StageEvidence(State(), r, text, checkpoint).disk.evidence);
      hide Inv;
      if checkpoint != "" && r !in disk.evidence {
        disk := disk.(evidence := disk.evidence[r := Evidence.Valid(text, checkpoint)]);
      }
    }

    method RemoveCompletionEvidence(r: RunId)
      requires Valid()
      modifies this`disk
      ensures State() == RemoveEvidence(old(State()), r) && Valid()
    {
      EvidenceStep(State(), disk.evidence - {r});
      hide Inv;
      disk := disk.(evidence := disk.evidence - {r});
    }

    /** One turn of the recovery loop. */
    method RecoverExecution(r: RunId, now: Time, fate: RunFate) returns (going: bool)
      requires Valid() && db.committedAt <= now && r < |db.runs|
      modifies this
      ensures (State(), going) == RecoverRun(old(State()), r, now, fate)
      ensures Valid() && db.committedAt <= now && |db.runs| == |old(db.runs)|
    {
      hide Inv, SettleWith;
      var signal;
      if db.runs[r].state.Cancelling? {
        signal := SettleRun(r, Interrupted, CANCELLATION_UNPROVED, None, now, fate.interruption);
        return signal.Done?;
      }
      if fate.reading.Reads? && HasProof(State(), r) {
        var proof := disk.evidence[r];
        signal := SettleRun(r, Completed, proof.text, Some(proof.checkpoint), now, fate.completion);
        if signal.Crashed? {
          return false;
        }
        if signal.Done? && !fate.removal.RemovalThrows? {
          if fate.removal.Removes? {
            RemoveCompletionEvidence(r);
          }
          return fate.removal.Removes?;
        }
      }
      signal := SettleRun(r, Interrupted, COMPLETION_UNPROVED, None, now, fate.interruption);
      return signal.Done?;
    }

    method ReconcileAcceptedRuns(attempt: Attempt) returns (finished: bool)
      requires Valid() && db.committedAt <= attempt.now
      modifies this
      ensures (State(), finished) == Reconcile(old(State()), attempt) && Valid()
    {
      hide Inv, RecoverRun, HoldQueuedRows, ExecutingRuns;
      ghost var was := State();
      var ids := ExecutingRuns(db.runs);
      var affected := SessionsOf(db.runs, ids);
      for k := 0 to |ids|
        invariant Valid() && db.committedAt <= attempt.now && |db.runs| == |was.db.runs|
        invariant RecoverAll(was, ids, attempt.now, attempt.plan) == RecoverAll(State(), ids[k..], attempt.now, attempt.plan)
      {
        assert ids[k..][1..] == ids[k + 1..];
        var going := RecoverExecution(ids[k], attempt.now, attempt.plan(ids[k]));
        if !going {
          return false;
        }
      }
      ghost var recovered := State();
      var stop := if attempt.held < |affected| then attempt.held else |affected|;
      for k := 0 to stop
        invariant Valid() && State() == HoldAll(recovered, affected[..k])
      {
        assert affected[..k + 1][..k] == affected[..k];
        HoldQueued(affected[k]);
      }
      assert affected[..|affected|] == affected;
      finished := stop == |affected|;
    }

    // -------------------------------------------------------------- worker loss

    /** recoverWorkerLoss: withdraws each active interaction in turn, then holds and sleeps. */
    method RecoverWorkerLoss(s: SessionId)
      requires Valid()
      modifies this`db
      ensures State() == LoseWorker(old(State()), s) && Valid()
    {
      hide Inv;
      var table := db.interactions;
      for i := 0 to |table|
        invariant Valid() && |db.interactions| == |table| && db == old(db).(interactions := db.interactions)
        invariant forall q :: 0 <= q < i ==> db.interactions[q] == WithdrawSessionInteractions(table, s)[q]
        invariant forall q :: i <= q < |table| ==> db.interactions[q] == table[q]
      {
        var row := table[i];
        if row.session == s && row.state.Active() {
          SettleInteraction(i, row.state, Withdrawn);
        }
      }
      assert db.interactions == WithdrawSessionInteractions(table, s);
      hide WithdrawSessionInteractions;
      HoldQueued(s);
      DropSessionResidency(s);
    }

    method DropSessionResidency(s: SessionId)
      requires Valid()
      modifies this`db
      ensures State() == DropResidency(old(State()), s) && Valid()
    {
      hide Inv, Step;
      assert Inv(DropResidency(State(), s)) by {
        DropResidencyStep(State(), s);
      }
      if s in db.sessions {
        UpdateSession(s, db.sessions[s].(resident := false));
      }
    }

    // -------------------------------------------------------------- the queue

    method DispatchNext(s: SessionId) returns (dispatched: Option<RunId>)
      requires Valid()
      modifies this`db
      ensures State() == Dispatch(old(State()), s) && Valid()
      ensures dispatched.Some? ==> dispatched.value < |db.runs| && db.runs[dispatched.value].state.Executing?
    {
      hide Inv, Step;
      assert Inv(Dispatch(State(), s)) by {
        DispatchStep(State(), s);
      }
      if SessionIsExecuting(db.runs, s) {
        return None;
      }
      dispatched := FirstQueued(db.runs, s);
      if dispatched.Some? {
        var r := dispatched.value;
        db := db.(runs := db.runs[r := db.runs[r].(state := Executing)]);
      }
    }

    method HoldQueued(s: SessionId)
      requires Valid()
      modifies this`db
      ensures State() == AuthorityOperations.HoldQueued(old(State()), s) && Valid()
    {
      hide Inv, Step;
      assert Inv(AuthorityOperations.HoldQueued(State(), s)) by {
        HoldQueuedStep(State(), s);
      }
      var table := db.runs;
      for r := 0 to |table|
        invariant |db.runs| == |table| && db == old(db).(runs := db.runs)
        invariant forall q :: 0 <= q < r ==> db.runs[q] == HoldQueuedRows(table, s)[q]
        invariant forall q :: r <= q < |table| ==> db.runs[q] == table[q]
      {
        if db.runs[r].session == s && db.runs[r].state.Queued? {
          db := db.(runs := db.runs[r := db.runs[r].(state := Held)]);
        }
      }
      assert db.runs == HoldQueuedRows(table, s);
    }

    method ReleaseRun(r: RunId) returns (released: bool)
      requires Valid()
      modifies this`db
      ensures State() == Release(old(State()), r) && Valid()
      ensures released ==> r < |db.runs| && db.runs[r].state.Executing?
    {
      hide Inv, Step, WaitsBehind, SessionIsExecuting;
      assert Inv(Release(State(), r)) by {
        ReleaseStep(State(), r);
      }
      var table := db.runs;
      if r >= |table| || !table[r].state.Held? || SessionIsExecuting(table, table[r].session) || WaitsBehind(table, r) {
        return false;
      }
      var s := table[r].session;
      for q := 0 to |table|
        invariant |db.runs| == |table| && db == old(db).(runs := db.runs)
        invariant forall p :: 0 <= p < q ==> db.runs[p] == ReleaseHeldRows(table, s, r)[p]
        invariant forall p :: q <= p < |table| ==> db.runs[p] == table[p]
      {
        if db.runs[q].session == s && db.runs[q].state.Held? {
          db := db.(runs := db.runs[q := db.runs[q].(state := if q == r then Executing else Queued)]);
        }
      }
      assert db.runs == ReleaseHeldRows(table, s, r);
      released := true;
    }

    method CancelQueuedRun(r: RunId) returns (cancelled: bool)
      requires Valid()
      modifies this`db
      ensures State() == CancelWaiting(old(State()), r) && Valid()
      ensures cancelled ==> r < |db.runs| && db.runs[r].state == Cancelled
    {
      hide Inv, Step;
      assert Inv(CancelWaiting(State(), r)) by {
        CancelWaitingStep(State(), r);
      }
      if r >= |db.runs| || !(db.runs[r].state.Queued? || db.runs[r].state.Held?) {
        return false;
      }
      db := db.(runs := db.runs[r := db.runs[r].(state := Cancelled)]);
      cancelled := true;
    }

    // -------------------------------------------------------------- the live timeline

    method AppendAssistantDelta(s: SessionId, r: RunId, text: string) returns (i: EntryId)
      requires s in db.sessions
      modifies this`db
      ensures State() == ApplyEvent(old(State()), s, r, AssistantDelta(text)) && Wrote(old(db), db, s, i)
    {
      hide NextEntryOrder, FindOpenAssistant;
      var found := FindOpenAssistant(db.entries, s, r);
      if found.Some? {
        i := found.value;
        UpdateEntry(i, db.entries[i].text + text, false);
      } else {
        i := |db.entries|;
        InsertEntry(NewEntry(db, s, r, AssistantEntry, text, None, None, false, None));
      }
    }

    method StartToolEntry(s: SessionId, r: RunId, call: string, name: string) returns (i: EntryId)
      requires s in db.sessions
      modifies this`db
      ensures State() == ApplyEvent(old(State()), s, r, ToolStarted(call, name)) && Wrote(old(db), db, s, i)
    {
      hide NextEntryOrder;
      i := |db.entries|;
      InsertEntry(NewEntry(db, s, r, ToolEntry, name, None, None, false, Some(call)));
    }

    method CompleteToolEntry(s: SessionId, r: RunId, call: string, name: string, text: string) returns (i: EntryId)
      requires s in db.sessions
      modifies this`db
      ensures State() == ApplyEvent(old(State()), s, r, ToolCompleted(call, name, text)) && Wrote(old(db), db, s, i)
    {
      hide NextEntryOrder, FindOpenTool;
      var found := FindOpenTool(db.entries, s, r, call);
      if found.Some? {
        i := found.value;
        UpdateEntry(i, name + ": " + text, true);
      } else {
        i := |db.entries|;
        InsertEntry(NewEntry(db, s, r, ToolEntry, name + ": " + text, None, None, true, Some(call)));
      }
    }

    /** The change a Client is sent is the row as it now is, one revision after the one it was based on. */
    method ApplyTimelineEvent(s: SessionId, r: RunId, event: TimelineEvent) returns (change: Option<TimelineChange>)
      requires Valid()
      modifies this`db
      ensures State() == ApplyEvent(old(State()), s, r, event) && Valid()
      ensures change.Some? <==> s in old(db.sessions)
      ensures change.None? ==> State() == old(State())
      ensures change.Some? ==> Describes(change.value, old(db), db) && EventOutcome(old(db), db, s, r, event)
    {
      ghost var was := State();
      hide Inv, Step, EventOutcome, ApplyEvent;
      assert s in db.sessions ==> EventOutcome(db, ApplyEvent(was, s, r, event).db, s, r, event) by {
        if s in db.sessions {
          EventMeets(was, s, r, event);
        }
      }
      if s !in db.sessions {
        UnknownSessionIdles(was, s, r, event);
      }
      assert Inv(ApplyEvent(State(), s, r, event)) by {
        ApplyEventStep(State(), s, r, event);
      }
      if s !in db.sessions {
        return None;
      }
      var base := db.sessions[s].timelineRevision;
      var i;
      match event {
        case AssistantDelta(text) =>
          i := AppendAssistantDelta(s, r, text);
        case ToolStarted(call, name) =>
          i := StartToolEntry(s, r, call, name);
        case ToolCompleted(call, name, text) =>
          i := CompleteToolEntry(s, r, call, name, text);
      }
      change := Some(TimelineChange(s, base, base + 1, i, db.entries[i]));
    }

    method FinalizeAssistantEntry(s: SessionId, r: RunId) returns (change: Option<TimelineChange>)
      requires Valid()
      modifies this`db
      ensures State() == FinalizeAssistant(old(State()), s, r) && Valid()
      ensures change.None? ==> State() == old(State())
      ensures change.Some? ==> Describes(change.value, old(db), db)
    {
      hide Inv, Step, FindOpenAssistant;
      assert Inv(FinalizeAssistant(State(), s, r)) by {
        FinalizeAssistantStep(State(), s, r);
      }
      var found := FindOpenAssistant(db.entries, s, r);
      if found.None? || s !in db.sessions {
        return None;
      }
      var base := db.sessions[s].timelineRevision;
      UpdateEntry(found.value, db.entries[found.value].text, true);
      change := Some(TimelineChange(s, base, base + 1, found.value, db.entries[found.value]));
    }

    // -------------------------------------------------------------- interactions

    method CreateInteraction(s: SessionId, r: RunId, generation: nat, correlation: nat, message: string, now: Time)
      returns (change: Option<TimelineChange>)
      requires Valid() && db.committedAt <= now
      modifies this`db
      ensures State() == OpenInteraction(old(State()), s, r, generation, correlation, message, now) && Valid()
      ensures AsksOutcome(old(db), db, s, r, generation, correlation, message, now)
      ensures change.None? ==> State() == old(State())
      ensures change.Some? ==> Describes(change.value, old(db), db)
    {
      AskingMeets(State(), s, r, generation, correlation, message, now);
      hide Inv, OpenInteraction, AsksOutcome;
      change := CommitInteraction(s, r, generation, correlation, message, now);
    }

    /** The transaction of a new interaction. */
    method CommitInteraction(s: SessionId, r: RunId, generation: nat, correlation: nat, message: string, now: Time)
      returns (change: Option<TimelineChange>)
      requires Valid() && db.committedAt <= now
      modifies this`db
      ensures State() == OpenInteraction(old(State()), s, r, generation, correlation, message, now) && Valid()
      ensures change.None? ==> State() == old(State())
      ensures change.Some? ==> Describes(change.value, old(db), db)
    {
      hide Inv, Step, NextEntryOrder;
      assert Inv(OpenInteraction(State(), s, r, generation, correlation, message, now)) by {
        OpenInteractionStep(State(), s, r, generation, correlation, message, now);
      }
      if s !in db.sessions || r >= |db.runs|
         || exists i :: 0 <= i < |db.interactions| && db.interactions[i].session == s
                        && db.interactions[i].generation == generation
                        && db.interactions[i].correlation == correlation
      {
        return None;
      }
      var base := db.sessions[s].timelineRevision;
      var i := InsertInteraction(s, r, generation, correlation, message);
      hide NewEntry, ReadStateOf;
      var entry := db.entries[i];
      RecordUnreadMilestone(s, now);
      change := Some(TimelineChange(s, base, base + 1, i, entry));
    }

    /** The inserts of createInteraction: the interaction and the row that announces it. */
    method InsertInteraction(s: SessionId, r: RunId, generation: nat, correlation: nat, message: string)
      returns (i: EntryId)
      requires s in db.sessions
      modifies this`db
      ensures var asked := old(db).(interactions := old(db.interactions)
                                                    + [Interaction(s, r, generation, correlation, Open, 1)]);
              db == AddEntry(asked, NewEntry(asked, s, r, InteractionEntry, message, None, None, true, None))
      ensures Wrote(old(db), db, s, i)
    {
      hide NextEntryOrder;
      i := |db.entries|;
      db := db.(interactions := db.interactions + [Interaction(s, r, generation, correlation, Open, 1)]);
      InsertEntry(NewEntry(db, s, r, InteractionEntry, message, None, None, true, None));
    }

    method ReserveInteraction(i: InteractionId, revision: nat) returns (reserved: bool)
      requires Valid()
      modifies this`db
      ensures State() == AuthorityOperations.ReserveInteraction(old(State()), i, revision) && Valid()
      ensures reserved <==> State() != old(State())
    {
      hide Inv, Step;
      assert Inv(AuthorityOperations.ReserveInteraction(State(), i, revision)) by {
        ReserveInteractionStep(State(), i, revision);
      }
      var rows := db.interactions;
      reserved := i < |rows| && rows[i].state.Open? && rows[i].revision == revision;
      if reserved {
        db := db.(interactions := rows[i := rows[i].(state := Resolving, revision := revision + 1)]);
        assert db.interactions[i] != rows[i];
      }
    }

    method SettleInteraction(i: InteractionId, from: InteractionState, to: InteractionState)
      requires Valid()
      modifies this`db
      ensures State() == AuthorityOperations.SettleInteraction(old(State()), i, from, to) && Valid()
    {
      hide Inv, Step;
      assert Inv(AuthorityOperations.SettleInteraction(State(), i, from, to)) by {
        SettleInteractionStep(State(), i, from, to);
      }
      var rows := db.interactions;
      if i < |rows| && rows[i].state == from {
        db := db.(interactions := rows[i := rows[i].(state := to, revision := rows[i].revision + 1)]);
      }
    }

    // -------------------------------------------------------------- retention and epochs

    /** Restores quarantined blobs one by one; a crash ends it when the budget of moves is spent. */
    method RestoreBlobs(todo: set<Blob>, budget: nat) returns (done: set<Blob>, left: nat)
      modifies this`disk
      ensures done <= todo && disk == ApplyMoves(old(disk), Moves(done, {}, {}))
      ensures if |todo| <= budget then done == todo && left == budget - |todo| else left == 0
    {
      done, left := {}, budget;
      var rest := todo;
      assert disk == ApplyMoves(old(disk), Moves({}, {}, {}));
      hide ApplyMoves;
      while rest != {} && left > 0
        invariant done <= todo && rest == todo - done && |rest| + |done| == |todo| && left + |done| == budget
        invariant disk == ApplyMoves(old(disk), Moves(done, {}, {}))
      {
        var b :| b in rest;
        RestoreMore(old(disk), done, b);
        if b in disk.quarantined {
          disk := disk.(live := disk.live + {b}, quarantined := disk.quarantined - {b});
        }
        done, rest, left := done + {b}, rest - {b}, left - 1;
      }
    }

    method QuarantineBlobs(todo: set<Blob>, budget: nat) returns (done: set<Blob>, left: nat)
      modifies this`disk
      ensures done <= todo && disk == ApplyMoves(old(disk), Moves({}, done, {}))
      ensures if |todo| <= budget then done == todo && left == budget - |todo| else left == 0
    {
      done, left := {}, budget;
      var rest := todo;
      assert disk == ApplyMoves(old(disk), Moves({}, {}, {}));
      hide ApplyMoves;
      while rest != {} && left > 0
        invariant done <= todo && rest == todo - done && |rest| + |done| == |todo| && left + |done| == budget
        invariant disk == ApplyMoves(old(disk), Moves({}, done, {}))
      {
        var b :| b in rest;
        QuarantineMore(old(disk), done, b);
        if b in disk.live {
          disk := disk.(live := disk.live - {b}, quarantined := disk.quarantined + {b});
        }
        done, rest, left := done + {b}, rest - {b}, left - 1;
      }
    }

    method DeleteQuarantinedBlobs(todo: set<Blob>, budget: nat) returns (done: set<Blob>, left: nat)
      modifies this`disk
      ensures done <= todo && disk == ApplyMoves(old(disk), Moves({}, {}, done))
      ensures if |todo| <= budget then done == todo && left == budget - |todo| else left == 0
    {
      done, left := {}, budget;
      var rest := todo;
      assert disk == ApplyMoves(old(disk), Moves({}, {}, {}));
      hide ApplyMoves;
      while rest != {} && left > 0
        invariant done <= todo && rest == todo - done && |rest| + |done| == |todo| && left + |done| == budget
        invariant disk == ApplyMoves(old(disk), Moves({}, {}, done))
      {
        var b :| b in rest;
        DeleteMore(old(disk), done, b);
        disk := disk.(quarantined := disk.quarantined - {b});
        done, rest, left := done + {b}, rest - {b}, left - 1;
      }
    }

    /** The known orphans: one that is referenced again is forgotten, one proved earlier is forgotten and deleted. */
    method ReviewOrphans(referenced: set<Blob>, now: Time) returns (restored: set<Blob>, deleted: set<Blob>)
      modifies this`db
      ensures restored == set b | b in old(db.orphans) && b in referenced
      ensures deleted == set b | b in old(db.orphans) && b !in referenced && now > old(db.orphans)[b]
      ensures db == old(db).(orphans := old(db.orphans) - (restored + deleted))
    {
      var known := db.orphans;
      var gone := {};
      restored, deleted := {}, {};
      var rest := known.Keys;
      while rest != {}
        invariant rest <= known.Keys
        invariant forall b :: b in restored <==> b in known && b in referenced && b !in rest
        invariant forall b :: b in deleted <==> b in known && b !in referenced && now > known[b] && b !in rest
        invariant gone == restored + deleted
        decreases |rest|
      {
        var b :| b in rest;
        if b in referenced {
          restored, gone := restored + {b}, gone + {b};
        } else if now > known[b] {
          deleted, gone := deleted + {b}, gone + {b};
        }
        rest := rest - {b};
      }
      db := db.(orphans := known - gone);
    }

    /** The directory listing: a live blob neither referenced nor known is proved an orphan now. */
    method ProveOrphans(referenced: set<Blob>, known: set<Blob>, now: Time) returns (quarantined: set<Blob>)
      modifies this`db
      ensures quarantined == set b | b in disk.live && b !in referenced && b !in known
      ensures db == old(db).(orphans := old(db.orphans) + map b | b in quarantined :: now)
    {
      var kept := db.orphans;
      quarantined := {};
      var listed := disk.live;
      while listed != {}
        invariant listed <= disk.live
        invariant forall b :: b in quarantined <==> b in disk.live && b !in referenced && b !in known && b !in listed
        decreases |listed|
      {
        var b :| b in listed;
        if b !in referenced && b !in known {
          quarantined := quarantined + {b};
        }
        listed := listed - {b};
      }
      db := db.(orphans := kept + map b | b in quarantined :: now);
    }

    /** The maintenance transaction: old changes, then known orphans, then the directory listing. */
    method DecideMaintenance(now: Time) returns (moves: Moves)
      modifies this`db
      ensures moves == PlannedMoves(old(State()), now)
      ensures db == MaintenanceTransaction(old(State()), now)
      ensures Decides(old(State()), moves, now) && ListsOrphans(old(State()), db, now)
    {
      PlanDecides(State(), now);
      TransactionLists(State(), now);
      hide Decides, ListsOrphans;
      hide KeepRecent;
      var referenced := Referenced(db);
      hide Referenced;
      var known := db.orphans.Keys;
      db := db.(changes := KeepRecent(db.changes, now - RETENTION));
      var restored, deleted := ReviewOrphans(referenced, now);
      var quarantined := ProveOrphans(referenced, known, now);
      moves := Moves(restored, quarantined, deleted);
      assert moves == PlannedMoves(old(State()), now);
    }

    /**
     runMaintenance: decides in one transaction, then moves files. A crash after `budget` moves leaves
     the transaction committed and the remaining moves undone.
     */
    method RunMaintenance(now: Time, budget: nat) returns (done: Moves)
      requires Valid()
      modifies this
      ensures State() == Maintain(old(State()), now, done) && Valid()
      ensures var planned := PlannedMoves(old(State()), now);
              && WithinMoves(done, planned)
              && (|planned.restored| + |planned.quarantined| + |planned.deleted| <= budget ==> done == planned)
      ensures MaintenanceOutcome(old(State()), State(), now, PlannedMoves(old(State()), now), done)
    {
      hide Inv, Step, PlannedMoves, MaintenanceTransaction;
      ghost var was := State();
      var planned := DecideMaintenance(now);
      ghost var before := disk;
      var restored, left := RestoreBlobs(planned.restored, budget);
      var quarantined, deleted := {}, {};
      quarantined, left := QuarantineBlobs(planned.quarantined, left);
      deleted, left := DeleteQuarantinedBlobs(planned.deleted, left);
      done := Moves(restored, quarantined, deleted);
      PlannedMovesAreDisjoint(was, now);
      MovesCompose(before, done);
      assert Inv(Maintain(was, now, done)) by {
        MaintainStep(was, now, done);
      }
      MaintenanceMeets(was, now, done);
      hide MaintenanceOutcome;
    }

    method RotateSynchronizationEpoch(now: Time)
      requires Valid() && db.committedAt <= now
      modifies this`db
      ensures State() == RotateEpoch(old(State()), now) && Valid()
    {
      hide Inv, Step;
      assert Inv(RotateEpoch(State(), now)) by {
        RotateEpochStep(State(), now);
      }
      db := db.(epoch := db.epoch + 1, sequence := db.sequence + 1, committedAt := now);
      db := db.(changes := []);
    }

    method RetainObjectReference(b: Blob)
      requires Valid()
      modifies this`db
      ensures State() == Retain(old(State()), b) && Valid()
    {
      hide Inv, Step;
      assert Inv(Retain(State(), b)) by {
        RetainStep(State(), b);
      }
      db := db.(retained := db.retained + {b});
    }

    method ResetResidencyOnStartup()
      requires Valid()
      modifies this`db
      ensures State() == ResetResidency(old(State())) && Valid()
    {
      hide Inv, Step;
      assert Inv(ResetResidency(State())) by {
        ResetResidencyStep(State());
      }
      var table := db.sessions;
      var rest := table.Keys;
      while rest != {}
        invariant rest <= table.Keys && db == old(db).(sessions := db.sessions) && db.sessions.Keys == table.Keys
        invariant forall s :: s in table ==> db.sessions[s] == if s in rest then table[s] else table[s].(resident := false)
        decreases |rest|
      {
        var s :| s in rest;
        UpdateSession(s, db.sessions[s].(resident := false));
        rest := rest - {s};
      }
      assert db.sessions == ResetResidency(old(State())).db.sessions;
    }
  }

  lemma UnknownSessionIdles(w: World, s: SessionId, r: RunId, event: TimelineEvent)
    requires s !in w.db.sessions
    ensures ApplyEvent(w, s, r, event) == w
  {}

  lemma UnsettledIsSettleable(w: World, r: RunId)
    requires Inv(w)
    ensures Unsettled(w.db, r) <==> Settleable(w.db, r)
  {}

  lemma PlannedMovesAreDisjoint(w: World, now: Time)
    ensures var m := PlannedMoves(w, now);
            m.restored !! m.quarantined && m.restored !! m.deleted && m.quarantined !! m.deleted
  {}

  /** Carrying out one more move on the disk that earlier moves of its kind left. */
  lemma RestoreMore(disk: Disk, done: set<Blob>, b: Blob)
    requires b !in done
    ensures var at := ApplyMoves(disk, Moves(done, {}, {}));
            ApplyMoves(disk, Moves(done + {b}, {}, {}))
            == if b in at.quarantined then at.(live := at.live + {b}, quarantined := at.quarantined - {b}) else at
  {}

  lemma QuarantineMore(disk: Disk, done: set<Blob>, b: Blob)
    requires b !in done
    ensures var at := ApplyMoves(disk, Moves({}, done, {}));
            ApplyMoves(disk, Moves({}, done + {b}, {}))
            == if b in at.live then at.(live := at.live - {b}, quarantined := at.quarantined + {b}) else at
  {}

  lemma DeleteMore(disk: Disk, done: set<Blob>, b: Blob)
    ensures var at := ApplyMoves(disk, Moves({}, {}, done));
            ApplyMoves(disk, Moves({}, {}, done + {b})) == at.(quarantined := at.quarantined - {b})
  {}

  /** Carrying out the three kinds of move one after another is carrying them out together. */
  lemma MovesCompose(disk: Disk, m: Moves)
    requires m.restored !! m.quarantined && m.restored !! m.deleted && m.quarantined !! m.deleted
    ensures ApplyMoves(ApplyMoves(ApplyMoves(disk, Moves(m.restored, {}, {})), Moves({}, m.quarantined, {})),
                       Moves({}, {}, m.deleted))
         == ApplyMoves(disk, m)
  {}

  /** One row of a timeline was inserted or rewritten, and its Session moved one revision on. */
  ghost predicate Wrote(a: Db, b: Db, s: SessionId, i: EntryId) {
    && s in a.sessions && s in b.sessions
    && b.sessions[s].timelineRevision == a.sessions[s].timelineRevision + 1
    && i < |b.entries| && b.entries[i].session == s && (i < |a.entries| ==> b.entries[i] != a.entries[i])
  }
}
