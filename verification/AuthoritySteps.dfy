/**
 Every AuthorityStore operation keeps the invariants and is a step of the history.
 */
module AuthoritySteps {
  import opened Options
  import opened AuthorityTables
  import opened AuthorityOperations
  import opened AuthorityInvariants

  /** Good steps compose with filing the receipt of a command that had none. */
  lemma CommandStep(a: World, b: World, env: Envelope, effect: Effect, position: Position)
    requires Good(a, b) && !Received(a.db, env) && b.db.receipts == a.db.receipts
    ensures Good(a, Accept(b, env, effect, position).0)
  {
    FiledStep(a, b, env, Accepted(effect, position));
  }

  lemma RejectStep(a: World, env: Envelope, error: Refusal)
    requires Inv(a) && !Received(a.db, env)
    ensures Good(a, Reject(a, env, error).0)
  {
    IdleStep(a);
    FiledStep(a, a, env, Rejected(error, Here(a.db)));
  }

  // ---------------------------------------------------------------- sessions

  /** The row of a Session created with no history. */
  predicate FirstRow(row: Session) {
    row.timelineRevision == 1 && row.readThrough <= 1 && row.readRevision >= 1 && row.milestone.None? && row.parent.None?
  }

  lemma NewSessionReopens(a: Db, s: SessionId, row: Session)
    requires Reopens(a) && s !in a.sessions && FirstRow(row)
    ensures Reopens(PutSession(a, s, row)) && ReadStep(a, PutSession(a, s, row))
  {
    BackingStays(a, PutSession(a, s, row));
    hide Backs;
  }

  lemma NewSessionKeepsRows(a: Db, s: SessionId, row: Session)
    requires RunsOk(a) && EntriesOk(a) && SettlementsOk(a) && s !in a.sessions && FirstRow(row)
    ensures RunsOk(PutSession(a, s, row)) && EntriesOk(PutSession(a, s, row)) && SettlementsOk(PutSession(a, s, row))
  {
    NoRows(a.entries, s);
    hide Dense, OrdersAreUnique, AtMostOneExecuting, QueueFollowsExecution;
  }

  lemma OtherWorkspaces(a: World, workspaces: map<WorkspaceId, ProjectId>)
    requires Inv(a)
    ensures Inv(a.(db := a.db.(workspaces := workspaces)))
  {
    var b := a.(db := a.db.(workspaces := workspaces));
    BackingStays(a.db, b.db);
    hide Backs, Dense;
  }

  lemma NewSessionKeeps(a: World, b: World, s: SessionId, row: Session)
    requires Inv(a) && s !in a.db.sessions && FirstRow(row)
    requires b == a.(db := PutSession(a.db, s, row).(workspaces := b.db.workspaces))
    ensures Inv(b) && ReadStep(a.db, b.db) && TimelineStep(a.db, b.db)
  {
    var put := a.(db := PutSession(a.db, s, row));
    NewSessionReopens(a.db, s, row);
    NewSessionKeepsRows(a.db, s, row);
    SameTimelineViews(a.db, b.db);
    hide Reopens, RunsOk, EntriesOk, SettlementsOk, TimelineStep;
    assert Inv(put);
    hide Inv;
    OtherWorkspaces(put, b.db.workspaces);
  }

  /** A Session without rows has the empty timeline. */
  lemma {:induction false} NoRows(entries: seq<Entry>, s: SessionId)
    requires forall i :: 0 <= i < |entries| ==> entries[i].session != s
    ensures Timeline(entries, s) == [] && RevisionSum(entries, s) == 0
  {
    if entries != [] {
      NoRows(entries[..|entries| - 1], s);
    }
  }

  lemma NewSessionStep(w: World, db: Db, s: SessionId, row: Session, now: Time)
    requires Inv(w) && w.db.committedAt <= now && s !in w.db.sessions
    requires db == w.db.(workspaces := db.workspaces) && row == NewSession(row.project, row.workspace)
    ensures Good(w, w.(db := Record(Bump(PutSession(db, s, row), now), SessionCreated(s, SummaryOf(row)))))
  {
    hide Inv, ReadStep, TimelineStep, Good;
    var put := w.(db := PutSession(db, s, row));
    NewSessionKeeps(w, put, s, row);
    assert Facets(put.db) == Facets(w.db)[s := FacetOf(row)];
    PublishStep(w, put, now, SessionCreated(s, SummaryOf(row)));
  }

  lemma CreateSessionStep(w: World, s: SessionId, project: Option<ProjectId>, workspace: Option<WorkspaceId>,
                          added: Option<(WorkspaceId, ProjectId)>, now: Time)
    requires Inv(w) && w.db.committedAt <= now
    ensures Good(w, CreateSession(w, s, project, workspace, added, now))
  {
    hide Inv, Good;
    IdleStep(w);
    var db := WithWorkspace(w.db, added);
    var scope := if added.Some? then Some(added.value.0) else workspace;
    if s !in w.db.sessions {
      NewSessionStep(w, db, s, NewSession(project, scope), now);
    }
  }

  lemma NewProjectKeeps(a: World, b: World)
    requires Inv(a)
    requires b == a.(db := a.db.(projects := b.db.projects, workspaces := b.db.workspaces))
    ensures Inv(b) && ReadStep(a.db, b.db) && TimelineStep(a.db, b.db)
  {
    BackingStays(a.db, b.db);
    forall t | t in a.db.sessions
      ensures TimelineMove(ViewOf(a.db, t), ViewOf(b.db, t))
    {
      assert ViewOf(a.db, t) == ViewOf(b.db, t);
    }
  }

  lemma CreateProjectStep(w: World, project: ProjectId, workspace: WorkspaceId, now: Time)
    requires Inv(w) && w.db.committedAt <= now
    ensures Good(w, CreateProject(w, project, workspace, now))
  {
    IdleStep(w);
    hide Inv;
    var b := CreateProject(w, project, workspace, now);
    if b != w {
      var put := w.(db := w.db.(projects := w.db.projects + {project},
                                workspaces := w.db.workspaces[workspace := project]));
      NewProjectKeeps(w, put);
      assert Facets(put.db) == Facets(w.db);
      PublishStep(w, put, now, ProjectCreated(project, workspace));
    }
  }

  lemma RenameStep(w: World, env: Envelope, now: Time)
    requires Inv(w) && w.db.committedAt <= now && env.RenameEnvelope?
    ensures Good(w, Rename(w, env, now).0)
  {
    hide Inv, Good;
    var db := w.db;
    if Received(db, env) {
      IdleStep(w);
    } else if env.session !in db.sessions {
      RejectStep(w, env, UnknownSession);
    } else if db.sessions[env.session].metadataRevision != env.observed {
      RejectStep(w, env, StalePrecondition);
    } else {
      var row := db.sessions[env.session].(
        name := env.name, metadataRevision := db.sessions[env.session].metadataRevision + 1);
      var change := SessionRenamed(env.session, SummaryOf(row));
      ReadStateIsOrdered(w, env.session);
      PublishedRowStep(w, env.session, row, now, change);
      var next := Record(Bump(PutSession(db, env.session, row), now), change);
      CommandStep(w, w.(db := next), env, Renamed(SummaryOf(row)), Here(next));
    }
  }

  lemma ChangeAvailabilityStep(w: World, env: Envelope, now: Time)
    requires Inv(w) && w.db.committedAt <= now && env.AvailabilityEnvelope?
    ensures Good(w, ChangeAvailability(w, env, now).0)
  {
    hide Inv, Good;
    var db := w.db;
    if Received(db, env) {
      IdleStep(w);
    } else if env.session !in db.sessions {
      RejectStep(w, env, UnknownSession);
    } else if db.sessions[env.session].metadataRevision != env.observed {
      RejectStep(w, env, StalePrecondition);
    } else if db.sessions[env.session].archived == env.archive {
      RejectStep(w, env, if env.archive then AlreadyArchived else NotArchived);
    } else if env.archive && SessionHasActiveWork(db, env.session) {
      RejectStep(w, env, SessionNotQuiescent);
    } else {
      var row := db.sessions[env.session].(
        archived := env.archive, resident := false,
        metadataRevision := db.sessions[env.session].metadataRevision + 1);
      var change := if env.archive then SessionArchived(env.session, SummaryOf(row))
                    else SessionRestored(env.session, SummaryOf(row));
      ReadStateIsOrdered(w, env.session);
      PublishedRowStep(w, env.session, row, now, change);
      var next := Record(Bump(PutSession(db, env.session, row), now), change);
      CommandStep(w, w.(db := next), env, AvailabilityChanged(SummaryOf(row)), Here(next));
    }
  }

  lemma MarkReadStep(w: World, env: Envelope, now: Time, fault: bool)
    requires Inv(w) && w.db.committedAt <= now && env.MarkReadEnvelope?
    ensures Good(w, MarkRead(w, env, now, fault).0)
  {
    hide Inv, Good;
    var db := w.db;
    if Received(db, env) || fault {
      IdleStep(w);
    } else if env.session !in db.sessions {
      RejectStep(w, env, UnknownSession);
    } else {
      var row := db.sessions[env.session];
      if env.presented < 1 || env.presented > row.timelineRevision {
        RejectStep(w, env, InvalidRevision);
      } else if env.presented <= row.readThrough {
        IdleStep(w);
        CommandStep(w, w, env, MarkedRead(false, ReadStateOf(row)), Here(db));
      } else {
        var next := row.(readThrough := env.presented, readRevision := row.readRevision + 1);
        var change := ReadStateChanged(env.session, ReadStateOf(next));
        ReadStateIsOrdered(w, env.session);
      PublishedRowStep(w, env.session, next, now, change);
        var committed := Record(Bump(PutSession(db, env.session, next), now), change);
        CommandStep(w, w.(db := committed), env, MarkedRead(true, ReadStateOf(next)), Here(committed));
      }
    }
  }

  lemma SleepStep(w: World, s: SessionId, now: Time)
    requires Inv(w) && w.db.committedAt <= now
    ensures Good(w, Sleep(w, s, now))
  {
    hide Inv, Good;
    if s !in w.db.sessions || !w.db.sessions[s].resident || SessionHasActiveWork(w.db, s) {
      IdleStep(w);
    } else {
      var row := w.db.sessions[s].(
        resident := false, metadataRevision := w.db.sessions[s].metadataRevision + 1);
      ReadStateIsOrdered(w, s);
      PublishedRowStep(w, s, row, now, ResidencyChanged(s, SummaryOf(row)));
    }
  }

  lemma ResidencyKeepsTables(a: World, sessions: map<SessionId, Session>)
    requires Inv(a) && sessions.Keys == a.db.sessions.Keys
    requires forall s :: s in sessions ==> sessions[s] == a.db.sessions[s].(resident := sessions[s].resident)
    ensures Inv(a.(db := a.db.(sessions := sessions)))
  {
    var b := a.(db := a.db.(sessions := sessions));
    BackingStays(a.db, b.db);
    assert RunsOk(b.db);
    assert EntriesOk(b.db);
  }

  /** Dropping residency touches nothing the log or a Client describes. */
  lemma ResidencyStep(a: World, sessions: map<SessionId, Session>)
    requires Inv(a) && sessions.Keys == a.db.sessions.Keys
    requires forall s :: s in sessions ==> sessions[s] == a.db.sessions[s].(resident := sessions[s].resident)
    ensures Good(a, a.(db := a.db.(sessions := sessions)))
  {
    var b := a.(db := a.db.(sessions := sessions));
    hide Inv, LogStep, TimelineStep;
    ResidencyKeepsTables(a, sessions);
    assert Facets(b.db) == Facets(a.db);
    UnloggedAdvance(a.db, b.db);
    SameTimelineViews(a.db, b.db);
    hide Facets;
  }

  // ---------------------------------------------------------------- the queue of runs

  /** Rewriting Run states keeps the world good when the new states do. */
  lemma RunsOnlyStep(a: World, runs: seq<Run>)
    requires Inv(a)
    requires RunStep(a.db, a.db.(runs := runs)) && |runs| == |a.db.runs|
    requires RunsOk(a.db.(runs := runs))
    requires forall r :: 0 <= r < |runs| && runs[r].state != a.db.runs[r].state ==>
               a.db.runs[r].state.Occupying()
               && (runs[r].state.Occupying() || runs[r].state.Cancelling? || runs[r].state.Cancelled?)
    ensures Good(a, a.(db := a.db.(runs := runs)))
  {
    var b := a.(db := a.db.(runs := runs));
    WaitingRunsStayUnsettled(a.db, runs);
    hide RunsOk, EntriesOk, SettlementsOk, Reopens, LogOk, BlobsOk, Good;
    QuietStep(a, b);
  }

  lemma WaitingRunsStayUnsettled(a: Db, runs: seq<Run>)
    requires SettlementsOk(a) && |runs| == |a.runs|
    requires forall r :: 0 <= r < |runs| ==> runs[r].session == a.runs[r].session
    requires forall r :: 0 <= r < |runs| && runs[r].state != a.runs[r].state ==>
               a.runs[r].state.Occupying()
               && (runs[r].state.Occupying() || runs[r].state.Cancelling? || runs[r].state.Cancelled?)
    ensures SettlementsOk(a.(runs := runs))
  {
    var b := a.(runs := runs);
    forall r | 0 <= r < |runs| && runs[r].session in b.sessions && b.sessions[runs[r].session].parent.None?
      ensures SettlementFits(b.runs[r].state, SettlementCount(b.entries, r))
    {
      assert SettlementFits(a.runs[r].state, SettlementCount(a.entries, r));
    }
  }

  lemma DispatchStep(w: World, s: SessionId)
    requires Inv(w)
    ensures Good(w, Dispatch(w, s))
  {
    var next := FirstQueued(w.db.runs, s);
    if SessionIsExecuting(w.db.runs, s) || next.None? {
      IdleStep(w);
    } else {
      var runs := w.db.runs[next.value := w.db.runs[next.value].(state := Executing)];
      RunsOnlyStep(w, runs);
    }
  }

  lemma HoldQueuedStep(w: World, s: SessionId)
    requires Inv(w)
    ensures Good(w, HoldQueued(w, s))
  {
    RunsOnlyStep(w, HoldQueuedRows(w.db.runs, s));
  }

  lemma ReleaseStep(w: World, r: RunId)
    requires Inv(w)
    ensures Good(w, Release(w, r))
  {
    var runs := w.db.runs;
    if r >= |runs| || !runs[r].state.Held? || SessionIsExecuting(runs, runs[r].session) || WaitsBehind(runs, r) {
      IdleStep(w);
    } else {
      RunsOnlyStep(w, ReleaseHeldRows(runs, runs[r].session, r));
    }
  }

  lemma CancelWaitingStep(w: World, r: RunId)
    requires Inv(w)
    ensures Good(w, CancelWaiting(w, r))
  {
    var runs := w.db.runs;
    if r >= |runs| || !(runs[r].state.Queued? || runs[r].state.Held?) {
      IdleStep(w);
    } else {
      RunsOnlyStep(w, runs[r := runs[r].(state := Cancelled)]);
    }
  }

  lemma DropResidencyStep(w: World, s: SessionId)
    requires Inv(w)
    ensures Good(w, DropResidency(w, s))
  {
    if s in w.db.sessions {
      ResidencyStep(w, w.db.sessions[s := w.db.sessions[s].(resident := false)]);
    } else {
      IdleStep(w);
    }
  }

  /** Interactions can change freely: nothing else in the invariants depends on them. */
  lemma InteractionsStep(w: World, rows: seq<Interaction>)
    requires Inv(w)
    ensures Good(w, w.(db := w.db.(interactions := rows)))
  {
    QuietStep(w, w.(db := w.db.(interactions := rows)));
  }

  lemma ReserveInteractionStep(w: World, i: InteractionId, revision: nat)
    requires Inv(w)
    ensures Good(w, ReserveInteraction(w, i, revision))
  {
    InteractionsStep(w, ReserveInteraction(w, i, revision).db.interactions);
  }

  lemma SettleInteractionStep(w: World, i: InteractionId, from: InteractionState, to: InteractionState)
    requires Inv(w)
    ensures Good(w, SettleInteraction(w, i, from, to))
  {
    InteractionsStep(w, SettleInteraction(w, i, from, to).db.interactions);
  }
}
