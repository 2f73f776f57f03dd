/**
 Accepting, steering, stopping and settling Runs keeps the invariants.
 */
module AuthorityRunSteps {
  import opened Options
  import opened AuthorityTables
  import opened AuthorityOperations
  import opened AuthorityInvariants
  import opened AuthoritySteps
  import opened AuthorityTimelineSteps

  /** A silent step that also leaves every timeline as it was. */
  ghost predicate Still(a: Db, b: Db) {
    && b.epoch == a.epoch && b.sequence == a.sequence && b.committedAt == a.committedAt
    && b.changes == a.changes && b.receipts == a.receipts && b.retained == a.retained
    && Facets(b) == Facets(a)
    && b.entries == a.entries && RunStep(a, b) && ReadStep(a, b)
    && forall s :: s in a.sessions ==> b.sessions[s].timelineRevision == a.sessions[s].timelineRevision
  }

  lemma StillThenSilent(a: Db, b: Db, c: Db)
    requires Still(a, b) && Silent(b, c)
    ensures Silent(a, c)
  {
    forall s | s in a.sessions
      ensures TimelineMove(ViewOf(a, s), ViewOf(c, s))
    {
      assert ViewOf(a, s) == ViewOf(b, s);
    }
  }

  lemma SilentThenStill(a: Db, b: Db, c: Db)
    requires Silent(a, b) && Still(b, c)
    ensures Silent(a, c)
  {
    forall s | s in a.sessions
      ensures TimelineMove(ViewOf(a, s), ViewOf(c, s))
    {
      assert ViewOf(b, s) == ViewOf(c, s);
    }
  }

  // ---------------------------------------------------------------- submitting

  lemma NewRunKeepsOrder(db: Db, run: Run)
    requires RunsOk(db) && run.session in db.sessions && !db.sessions[run.session].archived
    requires run.order == NextRunOrder(db.runs, run.session)
    requires run.state.Queued? || (run.state.Executing? && !SessionOccupied(db.runs, run.session))
    ensures RunsOk(db.(runs := db.runs + [run]))
  {
    NextRunOrderBounds(db.runs, run.session);
  }

  lemma {:induction false} UnknownRunHasNoSettlement(entries: seq<Entry>, r: RunId)
    requires forall i :: 0 <= i < |entries| && entries[i].kind.Settles() ==> entries[i].run < r
    ensures SettlementCount(entries, r) == 0
  {
    if entries != [] {
      UnknownRunHasNoSettlement(entries[..|entries| - 1], r);
    }
  }

  /** Steps that touch Runs and interactions only are still. */
  lemma OtherRunsAreStill(a: Db, b: Db)
    requires b == a.(runs := b.runs, interactions := b.interactions) && |a.runs| <= |b.runs|
    requires forall r :: 0 <= r < |a.runs| ==>
               && b.runs[r].session == a.runs[r].session && b.runs[r].order == a.runs[r].order
               && b.runs[r].prompt == a.runs[r].prompt
               && (a.runs[r].state.Terminal() ==> b.runs[r].state == a.runs[r].state)
    requires SettlementsStay(a, b)
    ensures RunStep(a, b) && EntryStep(a, b) && Still(a, b)
  {
    assert Facets(b) == Facets(a);
    hide SettlementsStay;
  }

  lemma NewRunStep(w: World, run: Run)
    requires Inv(w) && run.session in w.db.sessions && !w.db.sessions[run.session].archived
    requires run.order == NextRunOrder(w.db.runs, run.session)
    requires run.state.Queued? || (run.state.Executing? && !SessionOccupied(w.db.runs, run.session))
    ensures var b := w.(db := w.db.(runs := w.db.runs + [run])); Inv(b) && Still(w.db, b.db)
  {
    var b := w.(db := w.db.(runs := w.db.runs + [run]));
    NewRunKeepsOrder(w.db, run);
    NewRunIsUnsettled(w.db, run);
    OtherRunsAreStill(w.db, b.db);
    BackingStays(w.db, b.db);
    hide RunsOk, Dense, SettlementsOk, Backs, RunStep, Still;
  }

  lemma NewRunIsUnsettled(db: Db, run: Run)
    requires SettlementsOk(db) && EntriesOk(db) && (run.state.Queued? || run.state.Executing?)
    ensures SettlementsOk(db.(runs := db.runs + [run]))
  {
    UnknownRunHasNoSettlement(db.entries, |db.runs|);
    hide EntriesOk;
  }

  lemma ResidentRowIsStill(db: Db, s: SessionId)
    requires s in db.sessions
    ensures Still(db, PutSession(db, s, db.sessions[s].(resident := true)))
  {
    var b := PutSession(db, s, db.sessions[s].(resident := true));
    assert Facets(b) == Facets(db);
  }

  lemma ResidentIsStill(w: World, s: SessionId)
    requires Inv(w) && s in w.db.sessions
    ensures var b := w.(db := PutSession(w.db, s, w.db.sessions[s].(resident := true))); Inv(b) && Still(w.db, b.db)
  {
    ResidentRowIsStill(w.db, s);
    hide Inv, Still;
    ResidencyKeepsTables(w, w.db.sessions[s := w.db.sessions[s].(resident := true)]);
  }

  lemma AcceptedRunStep(w: World, run: Run, e: Entry)
    requires Inv(w) && run.session in w.db.sessions && !w.db.sessions[run.session].archived
    requires run.order == NextRunOrder(w.db.runs, run.session)
    requires run.state.Queued? || (run.state.Executing? && !SessionOccupied(w.db.runs, run.session))
    requires NextRow(w.db, e) && e.session == run.session && !e.kind.Settles()
    ensures var ran := AddEntry(w.db.(runs := w.db.runs + [run]), e);
            Good(w, World(PutSession(ran, run.session, ran.sessions[run.session].(resident := true)),
                          PublishBlob(w.disk, e.blob)))
  {
    var withRun := w.(db := w.db.(runs := w.db.runs + [run]));
    var ran := World(AddEntry(withRun.db, e), PublishBlob(w.disk, e.blob));
    assert NextRow(withRun.db, e);
    assert run.session in ran.db.sessions;
    hide Inv, Still, Silent, Good, NextRow, AddEntry;
    NewRunStep(w, run);
    AddedEntryStep(withRun, e);
    ResidentIsStill(ran, run.session);
    StillThenSilent(w.db, withRun.db, ran.db);
    var b := ran.(db := PutSession(ran.db, run.session, ran.db.sessions[run.session].(resident := true)));
    SilentThenStill(w.db, ran.db, b.db);
    SilentStep(w, b);
  }

  lemma SubmitStep(w: World, env: Envelope, now: Time)
    requires Inv(w) && env.SubmitEnvelope?
    ensures Good(w, Submit(w, env, now).0)
  {
    var db := w.db;
    var s := env.session;
    hide Inv, Good, SessionOccupied;
    if Received(db, env) {
      IdleStep(w);
    } else if s !in db.sessions {
      RejectStep(w, env, UnknownSession);
    } else if db.sessions[s].archived {
      RejectStep(w, env, SessionIsArchived);
    } else if env.followUp && !SessionOccupied(db.runs, s) {
      RejectStep(w, env, NoExecutingRun);
    } else if !env.followUp && SessionOccupied(db.runs, s) {
      RejectStep(w, env, SessionBusy);
    } else {
      var run := Run(s, NextRunOrder(db.runs, s), env.prompt, if env.followUp then Queued else Executing);
      var e := NewEntry(db, s, |db.runs|, PromptEntry, env.prompt, None, env.images, true, None);
      AcceptedRunStep(w, run, e);
      var ran := AddEntry(db.(runs := db.runs + [run]), e);
      var next := PutSession(ran, s, ran.sessions[s].(resident := true));
      CommandStep(w, World(next, PublishBlob(w.disk, env.images)), env, Submitted(|db.runs|), Here(db));
    }
  }

  // ---------------------------------------------------------------- steering

  lemma SteeredStep(w: World, e: Entry, now: Time)
    requires Inv(w) && w.db.committedAt <= now && NextRow(w.db, e) && !e.kind.Settles()
    ensures Good(w, World(Bump(AddEntry(w.db, e), now), PublishBlob(w.disk, e.blob)))
  {
    assert e.session in w.db.sessions;
    hide Inv, Good, NextRow;
    AddedEntryStep(w, e);
    var b := World(AddEntry(w.db, e), PublishBlob(w.disk, e.blob));
    assert b.db.epoch == w.db.epoch && b.db.committedAt == w.db.committedAt;
    hide Silent, AddEntry;
    SilentStep(w, b);
    BumpedStep(w, b, now);
  }

  lemma SteerStep(w: World, env: Envelope, active: Option<nat>, now: Time)
    requires Inv(w) && w.db.committedAt <= now && env.SteerEnvelope?
    ensures Good(w, Steer(w, env, active, now).0)
  {
    var db := w.db;
    hide Inv, Good;
    if Received(db, env) {
      IdleStep(w);
    } else if !TargetsActiveExecution(db, env.session, env.run, env.generation, env.observed, active) {
      RejectStep(w, env, StaleExecution);
    } else {
      var e := NewEntry(db, env.session, env.run, SteeringEntry, env.text, None, env.images, true, None);
      SteeredStep(w, e, now);
      var next := Bump(AddEntry(db, e), now);
      CommandStep(w, World(next, PublishBlob(w.disk, env.images)), env, Steered(|db.entries|), Here(next));
    }
  }

  // ---------------------------------------------------------------- stopping

  function StoppedRows(runs: seq<Run>, r: RunId): seq<Run>
    requires r < |runs|
  {
    CancelWaitingRows(runs[r := runs[r].(state := Cancelling)], runs[r].session)
  }

  lemma StoppedRowsStep(w: World, r: RunId)
    requires Inv(w) && r < |w.db.runs| && w.db.runs[r].state.Executing?
    ensures Good(w, w.(db := w.db.(runs := StoppedRows(w.db.runs, r))))
  {
    hide Good;
    RunsOnlyStep(w, StoppedRows(w.db.runs, r));
  }

  lemma StoppedRunsStep(w: World, r: RunId, rows: seq<Interaction>)
    requires Inv(w) && r < |w.db.runs| && w.db.runs[r].state.Executing?
    ensures var b := w.(db := w.db.(runs := StoppedRows(w.db.runs, r), interactions := rows));
            Inv(b) && Still(w.db, b.db)
  {
    var b := w.(db := w.db.(runs := StoppedRows(w.db.runs, r)));
    StoppedRowsStep(w, r);
    hide StoppedRows, Inv, LogStep, TimelineStep, ReceiptStep, EntryStep;
    InteractionsStep(b, rows);
    OtherRunsAreStill(w.db, b.db.(interactions := rows));
    hide Still;
  }

  lemma StoppedStep(w: World, r: RunId, rows: seq<Interaction>, e: Entry, now: Time)
    requires Inv(w) && r < |w.db.runs| && w.db.runs[r].state.Executing? && w.db.committedAt <= now
    requires NextRow(w.db, e) && !e.kind.Settles() && e.blob.None?
    ensures var stopped := w.db.(runs := StoppedRows(w.db.runs, r), interactions := rows);
            Good(w, w.(db := Bump(AddEntry(stopped, e), now)))
  {
    var stopped := w.(db := w.db.(runs := StoppedRows(w.db.runs, r), interactions := rows));
    assert NextRow(stopped.db, e);
    hide Inv, Good, NextRow, StoppedRows;
    StoppedRunsStep(w, r, rows);
    AddedEntryStep(stopped, e);
    var b := stopped.(db := AddEntry(stopped.db, e));
    assert b.db.epoch == w.db.epoch && b.db.committedAt == w.db.committedAt;
    hide Silent, Still, AddEntry;
    StillThenSilent(w.db, stopped.db, b.db);
    SilentStep(w, b);
    BumpedStep(w, b, now);
  }

  lemma StopStep(w: World, env: Envelope, active: Option<nat>, now: Time)
    requires Inv(w) && w.db.committedAt <= now && env.StopEnvelope?
    ensures Good(w, Stop(w, env, active, now).0)
  {
    var db := w.db;
    hide Inv, Good, CancelWaitingRows;
    if Received(db, env) || !TargetsActiveExecution(db, env.session, env.run, env.generation, env.observed, active) {
      IdleStep(w);
    } else {
      var rows := WithdrawRunInteractions(db.interactions, env.run);
      var e := NewEntry(db, env.session, env.run, LifecycleEntry, CANCELLATION_REQUESTED, None, None, true, None);
      StoppedStep(w, env.run, rows, e, now);
      var next := Bump(AddEntry(db.(runs := StoppedRows(db.runs, env.run), interactions := rows), e), now);
      CommandStep(w, w.(db := next), env, Stopped(env.run, |db.entries|), Here(next));
    }
  }

  // ---------------------------------------------------------------- settling

  /** The database after the settlement row and the Run's final state, before the milestone. */
  function Settled(db: Db, e: Entry, outcome: RunState): Db
    requires e.session in db.sessions && e.run < |db.runs|
  {
    AddEntry(db, e).(runs := db.runs[e.run := db.runs[e.run].(state := outcome)])
  }

  /** A settlement row for a Run that is executing or cancelling. */
  ghost predicate SettlementRow(db: Db, e: Entry) {
    NextRow(db, e) && e.kind.Settles() && Settleable(db, e.run) && db.runs[e.run].session == e.session
  }

  lemma SettledRunsAreOk(db: Db, e: Entry, outcome: RunState)
    requires RunsOk(db) && SettlementRow(db, e) && outcome.Terminal()
    ensures RunsOk(Settled(db, e, outcome)) && RunStep(db, Settled(db, e, outcome))
  {
    SettledRunIsOutOfLine(db, e, outcome);
    SettledRunCounts(db, e, outcome);
    hide RunsOk, SettlementsStay, NextEntryOrder;
  }

  /** A Run that ends leaves the line as it was for the others. */
  lemma SettledRunIsOutOfLine(db: Db, e: Entry, outcome: RunState)
    requires RunsOk(db) && SettlementRow(db, e) && outcome.Terminal()
    ensures RunsOk(Settled(db, e, outcome))
  {
    hide SettlementsStay, SettlementCount, SettlementFits, NextEntryOrder, NextRow;
  }

  lemma SettledEntriesAreOk(db: Db, e: Entry, outcome: RunState)
    requires EntriesOk(db) && SettlementRow(db, e)
    ensures EntriesOk(Settled(db, e, outcome))
  {
    AddedEntryIsOk(db, e);
    hide Dense;
  }

  lemma SettledTimeline(db: Db, e: Entry, outcome: RunState)
    requires SettlementRow(db, e)
    ensures TimelineStep(db, Settled(db, e, outcome)) && EntryStep(db, Settled(db, e, outcome))
  {
    AddedEntryIsTouch(db, e);
    var added := AddEntry(db, e);
    var b := Settled(db, e, outcome);
    forall s | s in db.sessions
      ensures TimelineMove(ViewOf(db, s), ViewOf(b, s))
    {
      assert ViewOf(added, s) == ViewOf(b, s);
    }
  }

  /** The settled Run gains its one settlement row; every other Run keeps its count. */
  lemma SettledRunCounts(db: Db, e: Entry, outcome: RunState)
    requires SettlementRow(db, e) && outcome.Terminal()
    ensures SettlementsStay(db, Settled(db, e, outcome))
    ensures forall r :: 0 <= r < |db.runs|
              ==> SettlementCount(Settled(db, e, outcome).entries, r) == SettlementCount(db.entries, r) + if r == e.run then 1 else 0
  {
    var b := Settled(db, e, outcome);
    hide NextEntryOrder, NextRow;
    forall r | 0 <= r < |db.runs|
      ensures SettlementCount(b.entries, r) == SettlementCount(db.entries, r) + if r == e.run then 1 else 0
    {
      AppendedSettlementCount(db.entries, e, r);
    }
    hide SettlementCount;
  }

  lemma SettledCounts(db: Db, e: Entry, outcome: RunState)
    requires SettlementsOk(db) && SettlementRow(db, e) && outcome.Terminal()
    ensures SettlementsOk(Settled(db, e, outcome))
  {
    SettledRunCounts(db, e, outcome);
    hide SettlementsStay, SettlementCount, NextRow;
  }

  lemma SettledReads(db: Db, e: Entry, outcome: RunState)
    requires Reopens(db) && SettlementRow(db, e) && outcome.Terminal()
    requires RunStep(db, Settled(db, e, outcome)) && EntryStep(db, Settled(db, e, outcome))
    ensures var b := Settled(db, e, outcome);
            Reopens(b) && ReadStep(db, b) && Facets(b) == Facets(db) && MilestoneDue(b, e.session)
  {
    var b := Settled(db, e, outcome);
    BackingStays(db, b);
    assert Facets(b) == Facets(db);
    assert b.entries[|db.entries|] == e;
    assert Backs(b, e.session, |db.entries|);
  }

  lemma SettledBlobs(w: World, e: Entry, outcome: RunState)
    requires BlobsOk(w) && LogOk(w.db) && SettlementRow(w.db, e)
    ensures BlobsOk(World(Settled(w.db, e, outcome), PublishBlob(w.disk, e.blob))) && LogOk(Settled(w.db, e, outcome))
  {}

  lemma SettledStep(w: World, e: Entry, outcome: RunState)
    requires Inv(w) && SettlementRow(w.db, e) && outcome.Terminal()
    ensures var b := World(Settled(w.db, e, outcome), PublishBlob(w.disk, e.blob));
            Inv(b) && Silent(w.db, b.db) && MilestoneDue(b.db, e.session)
  {
    SettledRunsAreOk(w.db, e, outcome);
    SettledEntriesAreOk(w.db, e, outcome);
    SettledTimeline(w.db, e, outcome);
    SettledCounts(w.db, e, outcome);
    SettledReads(w.db, e, outcome);
    SettledBlobs(w, e, outcome);
    hide RunsOk, EntriesOk, SettlementsOk, Reopens, BlobsOk, LogOk;
    hide TimelineStep, EntryStep, RunStep, ReadStep, MilestoneDue, SettlementRow;
  }

  lemma SettlementStep(w: World, e: Entry, outcome: RunState, now: Time)
    requires Inv(w) && SettlementRow(w.db, e) && outcome.Terminal() && w.db.committedAt <= now
    ensures Good(w, World(Bump(RecordMilestone(Settled(w.db, e, outcome), e.session, now), now),
                          PublishBlob(w.disk, e.blob)))
  {
    SettledStep(w, e, outcome);
    var b := World(Settled(w.db, e, outcome), PublishBlob(w.disk, e.blob));
    assert b.db.epoch == w.db.epoch && b.db.committedAt == w.db.committedAt;
    hide Inv, Silent, Good, MilestoneDue, Settled;
    MilestoneStep(w, b, e.session, now);
    var c := b.(db := RecordMilestone(b.db, e.session, now));
    assert c.db.epoch == w.db.epoch && c.db.committedAt <= now;
    BumpedStep(w, c, now);
  }

  /** Publishing a blob that nothing references yet. */
  lemma PublishedBlobStep(w: World, blob: Option<Blob>)
    requires Inv(w)
    ensures Good(w, w.(disk := PublishBlob(w.disk, blob)))
  {
    QuietStep(w, w.(disk := PublishBlob(w.disk, blob)));
  }

  lemma SettleStep(w: World, r: RunId, outcome: RunState, text: string, checkpoint: Option<string>,
                   now: Time, fault: bool)
    requires Inv(w) && w.db.committedAt <= now && outcome.Terminal()
    ensures Good(w, Settle(w, r, outcome, text, checkpoint, now, fault))
  {
    hide Inv, Good;
    if fault || !Settleable(w.db, r) {
      PublishedBlobStep(w, Some(text));
    } else {
      var kind := if outcome.Completed? then ResponseEntry else OutcomeEntry;
      var e := NewEntry(w.db, w.db.runs[r].session, r, kind, text, checkpoint, Some(text), true, None);
      SettlementStep(w, e, outcome, now);
    }
  }
}
