/**
 Operations that write timeline entries, settle Runs or fork Sessions keep the invariants.
 */
module AuthorityTimelineSteps {
  import opened Options
  import opened AuthorityTables
  import opened AuthorityOperations
  import opened AuthorityInvariants
  import opened AuthoritySteps

  // ---------------------------------------------------------------- steps the log does not see

  /** A step that leaves the log and everything the log describes as they were. */
  ghost predicate Silent(a: Db, b: Db) {
    && b.epoch == a.epoch && b.sequence == a.sequence && b.committedAt == a.committedAt
    && b.changes == a.changes && b.receipts == a.receipts && b.retained == a.retained
    && Facets(b) == Facets(a)
    && ReadStep(a, b) && TimelineStep(a, b) && RunStep(a, b) && EntryStep(a, b)
  }

  lemma SilentStep(a: World, b: World)
    requires Inv(b) && Silent(a.db, b.db)
    ensures Good(a, b)
  {
    hide Inv, ReadStep, TimelineStep, RunStep, EntryStep;
    UnloggedAdvance(a.db, b.db);
  }

  lemma BumpKeeps(w: World, now: Time)
    requires Inv(w) && w.db.committedAt <= now
    ensures Inv(w.(db := Bump(w.db, now)))
  {
    BackingStays(w.db, Bump(w.db, now));
  }

  /** Bumping the sequence without recording a change. */
  lemma BumpedStep(a: World, b: World, now: Time)
    requires Good(a, b) && b.db.committedAt <= now && b.db.epoch == a.db.epoch
    ensures Good(a, b.(db := Bump(b.db, now)))
  {
    var c := b.(db := Bump(b.db, now));
    BumpKeeps(b, now);
    hide Inv;
    assert Facets(c.db) == Facets(b.db);
    var dropped: nat, rows :| LogAdvance(a.db, b.db, dropped, rows);
    assert LogAdvance(a.db, c.db, dropped, rows);
    forall s | s in a.db.sessions
      ensures TimelineMove(ViewOf(a.db, s), ViewOf(c.db, s))
    {
      assert ViewOf(c.db, s) == ViewOf(b.db, s);
    }
  }

  // ---------------------------------------------------------------- advancing one timeline

  /** Only the entry table and one Session's timeline revision moved. */
  ghost predicate Advanced(a: Db, b: Db, s: SessionId) {
    && s in a.sessions
    && b == a.(entries := b.entries,
               sessions := a.sessions[s := a.sessions[s].(timelineRevision := a.sessions[s].timelineRevision + 1)])
    && EntryStep(a, b)
  }

  lemma AdvancedKeepsRows(a: Db, b: Db, s: SessionId)
    requires Reopens(a) && RunsOk(a) && LogOk(a) && Advanced(a, b, s) && SettlementsStay(a, b)
    ensures Reopens(b) && RunsOk(b) && LogOk(b)
    ensures ReadStep(a, b) && RunStep(a, b) && Facets(b) == Facets(a)
  {
    BackingStays(a, b);
    assert Facets(b) == Facets(a);
  }

  lemma SettlementCountsCarry(a: Db, b: Db)
    requires SettlementsOk(a) && b.runs == a.runs && b.sessions.Keys == a.sessions.Keys
    requires forall s :: s in a.sessions ==> b.sessions[s].parent == a.sessions[s].parent
    requires forall r :: 0 <= r < |a.runs| ==> SettlementCount(b.entries, r) == SettlementCount(a.entries, r)
    ensures SettlementsOk(b) && SettlementsStay(a, b)
  {}

  // ---------------------------------------------------------------- adding an entry

  /** A row NewEntry could have made. */
  ghost predicate NextRow(db: Db, e: Entry) {
    e.session in db.sessions && e.order == NextEntryOrder(db.entries, e.session) && e.revision == 1
  }

  lemma AddedEntryIsOk(db: Db, e: Entry)
    requires EntriesOk(db) && NextRow(db, e) && (e.kind.Settles() ==> e.run < |db.runs|)
    ensures EntriesOk(AddEntry(db, e))
  {
    var b := AddEntry(db, e);
    NextEntryOrderIsCount(db.entries, e.session);
    DenseAppend(db.entries, e);
    hide Dense;
    forall t | t in b.sessions && b.sessions[t].parent.None?
      ensures b.sessions[t].timelineRevision == 1 + RevisionSum(b.entries, t)
    {
      AppendedRevisionSum(db.entries, e, t);
    }
  }

  lemma AddedEntryIsTouch(db: Db, e: Entry)
    requires NextRow(db, e)
    ensures TimelineStep(db, AddEntry(db, e)) && Advanced(db, AddEntry(db, e), e.session)
    ensures Touched(ViewOf(db, e.session), ViewOf(AddEntry(db, e), e.session), |db.entries|)
  {
    var b := AddEntry(db, e);
    NextEntryOrderBounds(db.entries, e.session);
    assert Touched(ViewOf(db, e.session), ViewOf(b, e.session), |db.entries|);
    forall t | t in db.sessions && t != e.session
      ensures TimelineMove(ViewOf(db, t), ViewOf(b, t))
    {
      assert ViewOf(db, t) == ViewOf(b, t);
    }
  }

  lemma AddedEntrySettlesNothing(db: Db, e: Entry)
    requires SettlementsOk(db) && NextRow(db, e) && !e.kind.Settles()
    ensures SettlementsOk(AddEntry(db, e)) && SettlementsStay(db, AddEntry(db, e))
  {
    forall r | 0 <= r < |db.runs|
      ensures SettlementCount(db.entries + [e], r) == SettlementCount(db.entries, r)
    {
      AppendedSettlementCount(db.entries, e, r);
    }
    SettlementCountsCarry(db, AddEntry(db, e));
  }

  lemma AddedEntryBlobs(w: World, e: Entry)
    requires BlobsOk(w) && NextRow(w.db, e)
    ensures BlobsOk(World(AddEntry(w.db, e), PublishBlob(w.disk, e.blob)))
  {}

  /** Adding a plain entry is a silent step. */
  lemma AddedEntryStep(w: World, e: Entry)
    requires Inv(w) && NextRow(w.db, e) && !e.kind.Settles()
    ensures Inv(World(AddEntry(w.db, e), PublishBlob(w.disk, e.blob))) && Silent(w.db, AddEntry(w.db, e))
  {
    AddedEntryIsOk(w.db, e);
    AddedEntryIsTouch(w.db, e);
    AddedEntrySettlesNothing(w.db, e);
    AddedEntryBlobs(w, e);
    hide EntriesOk, SettlementsOk, SettlementsStay, BlobsOk, Reopens, RunsOk, LogOk, TimelineStep, EntryStep, Touched;
    AdvancedKeepsRows(w.db, AddEntry(w.db, e), e.session);
  }

  // ---------------------------------------------------------------- rewriting an entry

  lemma RevisedEntryIsOk(db: Db, i: EntryId, text: string, finalized: bool)
    requires EntriesOk(db) && i < |db.entries|
    ensures db.entries[i].session in db.sessions && EntriesOk(ReviseEntry(db, i, text, finalized))
  {
    var b := ReviseEntry(db, i, text, finalized);
    DenseUpdate(db.entries, i, b.entries[i]);
    hide Dense;
    forall t | t in b.sessions && b.sessions[t].parent.None?
      ensures b.sessions[t].timelineRevision == 1 + RevisionSum(b.entries, t)
    {
      UpdatedRevisionSum(db.entries, i, b.entries[i], t);
    }
  }

  lemma RevisedEntryIsTouch(db: Db, i: EntryId, text: string, finalized: bool)
    requires i < |db.entries| && !db.entries[i].finalized && db.entries[i].session in db.sessions
    ensures var b := ReviseEntry(db, i, text, finalized);
            TimelineStep(db, b) && Advanced(db, b, db.entries[i].session)
  {
    var b := ReviseEntry(db, i, text, finalized);
    var s := db.entries[i].session;
    assert Touched(ViewOf(db, s), ViewOf(b, s), i);
    forall t | t in db.sessions && t != s
      ensures TimelineMove(ViewOf(db, t), ViewOf(b, t))
    {
      assert ViewOf(db, t) == ViewOf(b, t);
    }
  }

  lemma RevisedEntrySettlesNothing(db: Db, i: EntryId, text: string, finalized: bool)
    requires SettlementsOk(db) && i < |db.entries| && db.entries[i].session in db.sessions
    ensures SettlementsOk(ReviseEntry(db, i, text, finalized)) && SettlementsStay(db, ReviseEntry(db, i, text, finalized))
  {
    var b := ReviseEntry(db, i, text, finalized);
    forall r | 0 <= r < |db.runs|
      ensures SettlementCount(b.entries, r) == SettlementCount(db.entries, r)
    {
      UpdatedSettlementCount(db.entries, i, b.entries[i], r);
    }
    SettlementCountsCarry(db, b);
  }

  lemma RevisedEntryStep(w: World, i: EntryId, text: string, finalized: bool)
    requires Inv(w) && i < |w.db.entries| && !w.db.entries[i].finalized
    ensures w.db.entries[i].session in w.db.sessions
    ensures var b := w.(db := ReviseEntry(w.db, i, text, finalized)); Inv(b) && Silent(w.db, b.db)
  {
    RevisedEntryIsOk(w.db, i, text, finalized);
    RevisedEntryIsTouch(w.db, i, text, finalized);
    RevisedEntrySettlesNothing(w.db, i, text, finalized);
    var b := w.(db := ReviseEntry(w.db, i, text, finalized));
    assert BlobsOk(b);
    hide EntriesOk, SettlementsOk, SettlementsStay, BlobsOk, Reopens, RunsOk, LogOk, TimelineStep, EntryStep;
    AdvancedKeepsRows(w.db, b.db, w.db.entries[i].session);
  }

  // ---------------------------------------------------------------- live timeline operations

  lemma ApplyEventStep(w: World, s: SessionId, r: RunId, event: TimelineEvent)
    requires Inv(w)
    ensures Good(w, ApplyEvent(w, s, r, event))
  {
    hide Inv, Good, Silent;
    var db := w.db;
    if s !in db.sessions {
      IdleStep(w);
    } else {
      match event
      case AssistantDelta(text) =>
        var found := FindOpenAssistant(db.entries, s, r);
        if found.Some? {
          RevisedEntryStep(w, found.value, db.entries[found.value].text + text, false);
        } else {
          AddedEntryStep(w, NewEntry(db, s, r, AssistantEntry, text, None, None, false, None));
        }
      case ToolStarted(call, name) =>
        AddedEntryStep(w, NewEntry(db, s, r, ToolEntry, name, None, None, false, Some(call)));
      case ToolCompleted(call, name, text) =>
        var found := FindOpenTool(db.entries, s, r, call);
        if found.Some? {
          RevisedEntryStep(w, found.value, name + ": " + text, true);
        } else {
          AddedEntryStep(w, NewEntry(db, s, r, ToolEntry, name + ": " + text, None, None, true, Some(call)));
        }
    }
    if s in db.sessions {
      SilentStep(w, ApplyEvent(w, s, r, event));
    }
  }

  lemma FinalizeAssistantStep(w: World, s: SessionId, r: RunId)
    requires Inv(w)
    ensures Good(w, FinalizeAssistant(w, s, r))
  {
    hide Inv, Good, Silent;
    var found := FindOpenAssistant(w.db.entries, s, r);
    if found.None? || s !in w.db.sessions {
      IdleStep(w);
    } else {
      RevisedEntryStep(w, found.value, w.db.entries[found.value].text, true);
      SilentStep(w, FinalizeAssistant(w, s, r));
    }
  }

  // ---------------------------------------------------------------- unread milestones

  lemma ReadStepComposes(a: Db, b: Db, c: Db)
    requires ReadStep(a, b) && ReadStep(b, c)
    ensures ReadStep(a, c)
  {}

  /** The row recordUnreadMilestone writes. */
  function MilestoneOf(row: Session): Session {
    row.(milestone := Some(row.timelineRevision),
         readRevision := row.readRevision + if ReadStateOf(row).unread then 0 else 1)
  }

  /** A Session whose timeline backs a milestone at its current, unread revision. */
  ghost predicate MilestoneDue(db: Db, s: SessionId) {
    && s in db.sessions
    && db.sessions[s].readThrough < db.sessions[s].timelineRevision
    && exists i: EntryId :: Backs(db, s, i)
  }

  function WithMilestone(db: Db, s: SessionId): Db
    requires s in db.sessions
  {
    PutSession(db, s, MilestoneOf(db.sessions[s]))
  }

  lemma MilestoneKeeps(w: World, s: SessionId)
    requires Inv(w) && MilestoneDue(w.db, s)
    ensures Inv(w.(db := WithMilestone(w.db, s))) && ReadStep(w.db, WithMilestone(w.db, s))
  {
    var b := WithMilestone(w.db, s);
    forall t | t in b.sessions && b.sessions[t].milestone.Some?
      ensures exists i: EntryId :: Backs(b, t, i)
    {
      var i: EntryId :| Backs(w.db, t, i);
      assert Backs(b, t, i);
    }
    assert RunsOk(b);
    assert EntriesOk(b);
  }

  lemma MilestoneFollowsSilence(a: Db, m: Db, s: SessionId)
    requires Silent(a, m) && MilestoneDue(m, s) && ReadStep(m, WithMilestone(m, s))
    ensures var put := WithMilestone(m, s);
            ReadStep(a, put) && TimelineStep(a, put) && RunStep(a, put) && EntryStep(a, put)
  {
    var put := WithMilestone(m, s);
    ReadStepComposes(a, m, put);
    forall t | t in a.sessions
      ensures TimelineMove(ViewOf(a, t), ViewOf(put, t))
    {
      assert ViewOf(m, t) == ViewOf(put, t);
    }
  }

  lemma MilestoneFacets(m: Db, s: SessionId)
    requires MilestoneDue(m, s)
    ensures var row := WithMilestone(m, s).sessions[s];
            && (ReadStateOf(m.sessions[s]).unread ==> Facets(WithMilestone(m, s)) == Facets(m))
            && Facets(WithMilestone(m, s)) == ApplyChange(Facets(m), ReadStateChanged(s, ReadStateOf(row)))
  {
    var put := WithMilestone(m, s);
    assert Facets(put) == Facets(m)[s := FacetOf(put.sessions[s])];
  }

  lemma UnreadMilestoneStep(a: World, m: World, s: SessionId)
    requires Inv(a) && Inv(m) && Silent(a.db, m.db) && MilestoneDue(m.db, s) && ReadStateOf(m.db.sessions[s]).unread
    ensures Good(a, m.(db := WithMilestone(m.db, s)))
  {
    MilestoneKeeps(m, s);
    MilestoneFollowsSilence(a.db, m.db, s);
    MilestoneFacets(m.db, s);
    hide Inv, ReadStep, TimelineStep, RunStep, EntryStep, Good, Facets, MilestoneDue;
    SilentStep(a, m.(db := WithMilestone(m.db, s)));
  }

  lemma ReadMilestoneStep(a: World, m: World, s: SessionId, now: Time)
    requires Inv(a) && Inv(m) && Silent(a.db, m.db) && MilestoneDue(m.db, s) && a.db.committedAt <= now
    ensures var put := WithMilestone(m.db, s);
            Good(a, m.(db := Record(Bump(put, now), ReadStateChanged(s, ReadStateOf(put.sessions[s])))))
  {
    MilestoneKeeps(m, s);
    MilestoneFollowsSilence(a.db, m.db, s);
    MilestoneFacets(m.db, s);
    hide Inv, ReadStep, TimelineStep, RunStep, EntryStep, Good, Facets, MilestoneDue, ApplyChange;
    var put := m.(db := WithMilestone(m.db, s));
    PublishStep(a, put, now, ReadStateChanged(s, ReadStateOf(put.db.sessions[s])));
  }

  lemma RecordedMilestone(db: Db, s: SessionId, now: Time)
    requires s in db.sessions
    ensures var put := WithMilestone(db, s);
            RecordMilestone(db, s, now)
            == if ReadStateOf(db.sessions[s]).unread then put
               else Record(Bump(put, now), ReadStateChanged(s, ReadStateOf(put.sessions[s])))
  {}

  /** After a silent step that backs it, recording a milestone is a step of the log. */
  lemma MilestoneStep(a: World, m: World, s: SessionId, now: Time)
    requires Inv(a) && Inv(m) && Silent(a.db, m.db) && MilestoneDue(m.db, s) && a.db.committedAt <= now
    ensures Good(a, m.(db := RecordMilestone(m.db, s, now)))
  {
    hide Inv, Good, Silent, WithMilestone, RecordMilestone;
    RecordedMilestone(m.db, s, now);
    if ReadStateOf(m.db.sessions[s]).unread {
      UnreadMilestoneStep(a, m, s);
    } else {
      ReadMilestoneStep(a, m, s, now);
    }
  }

  // ---------------------------------------------------------------- interactions

  lemma InteractionsAreSilent(a: World, b: World, rows: seq<Interaction>)
    requires Inv(b) && Silent(a.db, b.db)
    ensures Inv(b.(db := b.db.(interactions := rows))) && Silent(a.db, b.db.(interactions := rows))
  {
    var c := b.(db := b.db.(interactions := rows));
    InteractionsStep(b, rows);
    hide Inv;
    assert Facets(c.db) == Facets(b.db);
    forall t | t in a.db.sessions
      ensures TimelineMove(ViewOf(a.db, t), ViewOf(c.db, t))
    {
      assert ViewOf(c.db, t) == ViewOf(b.db, t);
    }
  }

  /** A new interaction entry makes a milestone due at the new timeline revision. */
  lemma InteractionIsDue(db: Db, e: Entry, rows: seq<Interaction>)
    requires NextRow(db, e) && e.kind.InteractionEntry?
    requires db.sessions[e.session].readThrough <= db.sessions[e.session].timelineRevision
    ensures MilestoneDue(AddEntry(db.(interactions := rows), e), e.session)
    ensures AddEntry(db.(interactions := rows), e) == AddEntry(db, e).(interactions := rows)
  {
    var m := AddEntry(db.(interactions := rows), e);
    assert m.entries[|db.entries|] == e;
    assert Backs(m, e.session, |db.entries|);
  }

  /** An interaction row, its entry and its milestone. */
  lemma InteractionEntryStep(w: World, e: Entry, rows: seq<Interaction>, now: Time)
    requires Inv(w) && w.db.committedAt <= now && NextRow(w.db, e) && e.kind.InteractionEntry? && e.blob.None?
    ensures Good(w, w.(db := RecordMilestone(AddEntry(w.db.(interactions := rows), e), e.session, now)))
  {
    ReadStateIsOrdered(w, e.session);
    InteractionIsDue(w.db, e, rows);
    hide Inv, Silent, Good, AddEntry, RecordMilestone, MilestoneDue;
    AddedEntryStep(w, e);
    InteractionsAreSilent(w, w.(db := AddEntry(w.db, e)), rows);
    MilestoneStep(w, w.(db := AddEntry(w.db.(interactions := rows), e)), e.session, now);
  }

  lemma OpenInteractionStep(w: World, s: SessionId, r: RunId, generation: nat, correlation: nat,
                            message: string, now: Time)
    requires Inv(w) && w.db.committedAt <= now
    ensures Good(w, OpenInteraction(w, s, r, generation, correlation, message, now))
  {
    hide Inv, Good;
    IdleStep(w);
    if s in w.db.sessions {
      var e := NewEntry(w.db, s, r, InteractionEntry, message, None, None, true, None);
      InteractionEntryStep(w, e, w.db.interactions + [Interaction(s, r, generation, correlation, Open, 1)], now);
    }
  }
}
