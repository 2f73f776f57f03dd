/**
 What every reachable Authority database satisfies, and what every step between two of them keeps.
 */
module AuthorityInvariants {
  import opened Options
  import opened AuthorityTables
  import opened AuthorityOperations

  // ---------------------------------------------------------------- state invariants

  /** A timeline row that justifies an unread milestone: an interaction, or a row of a finished Run. */
  ghost predicate Backs(db: Db, s: SessionId, i: EntryId) {
    && i < |db.entries| && db.entries[i].session == s
    && (db.entries[i].kind.InteractionEntry?
        || (db.entries[i].run < |db.runs| && db.runs[db.entries[i].run].state.Terminal()))
  }

  /** The condition under which the constructor's assertReadStateIntegrity does not throw. */
  ghost predicate Reopens(db: Db) {
    forall s :: s in db.sessions ==>
      var row := db.sessions[s];
      && row.readRevision >= 1
      && row.readThrough <= row.timelineRevision
      && (row.milestone.Some? ==> row.milestone.value <= row.timelineRevision && exists i: EntryId :: Backs(db, s, i))
  }

  ghost predicate AtMostOneExecuting(runs: seq<Run>) {
    forall i, j :: 0 <= i < |runs| && 0 <= j < |runs| && runs[i].session == runs[j].session
                   && runs[i].state.Executing? && runs[j].state.Executing?
      ==> i == j
  }

  ghost predicate QueueFollowsExecution(runs: seq<Run>) {
    forall i, j :: 0 <= i < |runs| && 0 <= j < |runs| && runs[i].session == runs[j].session
                   && runs[i].state.Executing? && runs[j].state.Queued?
      ==> runs[i].order < runs[j].order
  }

  /** UNIQUE(session_id, session_order). */
  ghost predicate OrdersAreUnique(runs: seq<Run>) {
    forall i, j :: 0 <= i < |runs| && 0 <= j < |runs| && runs[i].session == runs[j].session
                   && runs[i].order == runs[j].order
      ==> i == j
  }

  ghost predicate RunsOk(db: Db) {
    && OrdersAreUnique(db.runs)
    && AtMostOneExecuting(db.runs)
    && QueueFollowsExecution(db.runs)
    && forall i :: 0 <= i < |db.runs| ==>
         && db.runs[i].session in db.sessions
         && (db.sessions[db.runs[i].session].archived ==> db.runs[i].state.Terminal())
  }

  ghost predicate EntriesOk(db: Db) {
    && Dense(db.entries)
    && (forall i :: 0 <= i < |db.entries| ==> db.entries[i].session in db.sessions && db.entries[i].revision >= 1)
    && (forall i :: 0 <= i < |db.entries| && db.entries[i].kind.Settles() ==> db.entries[i].run < |db.runs|)
    && (forall s :: s in db.sessions && db.sessions[s].parent.None? ==>
          db.sessions[s].timelineRevision == 1 + RevisionSum(db.entries, s))
  }

  /** One response or outcome per settled Run, none while it runs. */
  predicate SettlementFits(state: RunState, count: nat) {
    match state
    case Completed | Failed | Interrupted => count == 1
    case Cancelled => count <= 1
    case _ => count == 0
  }

  /** Only a finished Run of a forked Session, which a fork may have copied, need not have its settlement. */
  ghost predicate SettlementsOk(db: Db) {
    forall r :: 0 <= r < |db.runs|
                && (!db.runs[r].state.Terminal()
                    || (db.runs[r].session in db.sessions && db.sessions[db.runs[r].session].parent.None?))
      ==> SettlementFits(db.runs[r].state, SettlementCount(db.entries, r))
  }

  /** Log rows ascend by sequence, and by commit time because the clock does not go back. */
  ghost predicate LogOk(db: Db) {
    && (forall i, j :: 0 <= i < j < |db.changes| ==>
          db.changes[i].sequence < db.changes[j].sequence && db.changes[i].committedAt <= db.changes[j].committedAt)
    && (forall i :: 0 <= i < |db.changes| ==>
          db.changes[i].sequence <= db.sequence && db.changes[i].committedAt <= db.committedAt)
  }

  ghost predicate BlobsOk(w: World) {
    forall i :: 0 <= i < |w.db.entries| && w.db.entries[i].blob.Some? ==> w.db.entries[i].blob.value in w.disk.live
  }

  ghost predicate Inv(w: World) {
    && Reopens(w.db) && RunsOk(w.db) && EntriesOk(w.db) && SettlementsOk(w.db) && LogOk(w.db) && BlobsOk(w)
  }

  // ---------------------------------------------------------------- step relations

  /** The part of a Session that the synchronization log describes. */
  datatype Facet = Facet(name: string, project: Option<ProjectId>, workspace: Option<WorkspaceId>,
                         metadataRevision: nat, archived: bool, parent: Option<(SessionId, EntryId)>,
                         readState: ReadState)

  function FacetOf(row: Session): Facet {
    Facet(row.name, row.project, row.workspace, row.metadataRevision, row.archived, row.parent, ReadStateOf(row))
  }

  function SummaryFacet(summary: Summary): Facet {
    Facet(summary.name, summary.project, summary.workspace, summary.metadataRevision, summary.archived,
          summary.parent, summary.readState)
  }

  function Facets(db: Db): map<SessionId, Facet> {
    map s | s in db.sessions :: FacetOf(db.sessions[s])
  }

  /** What a reader of the log does with one change. */
  function ApplyChange(facets: map<SessionId, Facet>, change: Change): map<SessionId, Facet> {
    match change
    case ProjectCreated(_, _) => facets
    case ReadStateChanged(s, readState) =>
      if s in facets then facets[s := facets[s].(readState := readState)] else facets
    case _ => facets[change.session := SummaryFacet(change.summary)]
  }

  function Fold(facets: map<SessionId, Facet>, rows: seq<Logged>): map<SessionId, Facet> {
    if rows == [] then facets
    else ApplyChange(Fold(facets, rows[..|rows| - 1]), rows[|rows| - 1].change)
  }

  /** The log lost a prefix and gained at most one row, which describes what happened to the facets. */
  ghost predicate LogAdvance(a: Db, b: Db, dropped: nat, rows: seq<Logged>) {
    && dropped <= |a.changes| && |rows| <= 1
    && b.epoch == a.epoch && b.sequence >= a.sequence
    && b.changes == a.changes[dropped..] + rows
    && (forall k :: 0 <= k < |rows| ==> a.sequence < rows[k].sequence <= b.sequence)
    && Facets(b) == Fold(Facets(a), rows)
  }

  ghost predicate Rotated(a: Db, b: Db) {
    b.epoch == a.epoch + 1 && b.sequence == a.sequence + 1 && b.changes == [] && Facets(b) == Facets(a)
  }

  ghost predicate LogStep(a: Db, b: Db) {
    Rotated(a, b) || exists dropped: nat, rows: seq<Logged> :: LogAdvance(a, b, dropped, rows)
  }

  /** A Session's read state changes only under a greater read-state revision. */
  ghost predicate ReadStep(a: Db, b: Db) {
    forall s :: s in a.sessions ==>
      && s in b.sessions
      && b.sessions[s].readRevision >= a.sessions[s].readRevision
      && (b.sessions[s].readRevision == a.sessions[s].readRevision
          ==> ReadStateOf(b.sessions[s]) == ReadStateOf(a.sessions[s]))
  }

  /** A Session's timeline as a Client sees it: the revision and the rows by identity. */
  datatype TimelineView = TimelineView(revision: nat, rows: map<EntryId, Entry>)

  function ViewOf(db: Db, s: SessionId): TimelineView
    requires s in db.sessions
  {
    TimelineView(db.sessions[s].timelineRevision,
                 map i | 0 <= i < |db.entries| && db.entries[i].session == s :: db.entries[i])
  }

  /** One revision adds a row or rewrites an unfinalized one at a greater row revision. */
  ghost predicate Touched(a: TimelineView, b: TimelineView, i: EntryId) {
    && b.revision == a.revision + 1
    && i in b.rows && b.rows == a.rows[i := b.rows[i]]
    && (i in a.rows ==> !a.rows[i].finalized && b.rows[i].revision > a.rows[i].revision
                        && b.rows[i].order == a.rows[i].order)
    && (i !in a.rows ==> forall j :: j in a.rows ==> a.rows[j].order < b.rows[i].order)
  }

  ghost predicate TimelineMove(a: TimelineView, b: TimelineView) {
    a == b || exists i :: Touched(a, b, i)
  }

  /** A timeline change tells its Session's revision move and carries the row as it now is. */
  ghost predicate Describes(change: TimelineChange, a: Db, b: Db) {
    && change.session in a.sessions && change.session in b.sessions
    && change.baseRevision == a.sessions[change.session].timelineRevision
    && change.revision == b.sessions[change.session].timelineRevision == change.baseRevision + 1
    && change.id < |b.entries| && b.entries[change.id] == change.entry && change.entry.session == change.session
    && (change.id < |a.entries| ==> a.entries[change.id] != change.entry)
  }

  ghost predicate TimelineStep(a: Db, b: Db) {
    forall s :: s in a.sessions ==> s in b.sessions && TimelineMove(ViewOf(a, s), ViewOf(b, s))
  }

  /** A Run whose settlement rows fit its state keeps rows that do. */
  ghost predicate SettlementsStay(a: Db, b: Db) {
    && |a.runs| <= |b.runs|
    && forall r :: 0 <= r < |a.runs| && SettlementFits(a.runs[r].state, SettlementCount(a.entries, r))
         ==> SettlementFits(b.runs[r].state, SettlementCount(b.entries, r))
  }

  /** Runs keep their place, prompt and settlement, and a terminal Run keeps its state. */
  ghost predicate RunStep(a: Db, b: Db) {
    && SettlementsStay(a, b)
    && |a.runs| <= |b.runs|
    && forall r :: 0 <= r < |a.runs| ==>
         && b.runs[r].session == a.runs[r].session && b.runs[r].order == a.runs[r].order
         && b.runs[r].prompt == a.runs[r].prompt
         && (a.runs[r].state.Terminal() ==> b.runs[r].state == a.runs[r].state)
  }

  /** Rows stay where they are, and a finalized row is never rewritten. */
  ghost predicate EntryStep(a: Db, b: Db) {
    && |a.entries| <= |b.entries|
    && forall i :: 0 <= i < |a.entries| ==>
         && b.entries[i].session == a.entries[i].session && b.entries[i].order == a.entries[i].order
         && b.entries[i].run == a.entries[i].run && b.entries[i].kind == a.entries[i].kind
         && b.entries[i].blob == a.entries[i].blob
         && (a.entries[i].finalized ==> b.entries[i] == a.entries[i])
  }

  ghost predicate ReceiptStep(a: Db, b: Db) {
    forall c :: c in a.receipts ==> c in b.receipts && b.receipts[c] == a.receipts[c]
  }

  ghost predicate Step(a: Db, b: Db) {
    && LogStep(a, b) && ReadStep(a, b) && TimelineStep(a, b) && RunStep(a, b) && EntryStep(a, b)
    && ReceiptStep(a, b) && a.retained <= b.retained && a.committedAt <= b.committedAt
  }

  ghost predicate Good(a: World, b: World) { Inv(b) && Step(a.db, b.db) }

  // ---------------------------------------------------------------- steps that leave the timeline alone

  lemma UnloggedAdvance(a: Db, b: Db)
    requires b.epoch == a.epoch && b.sequence >= a.sequence && b.changes == a.changes && Facets(b) == Facets(a)
    ensures LogStep(a, b)
  {
    assert LogAdvance(a, b, 0, []);
  }

  lemma LoggedAdvance(a: Db, b: Db, row: Logged)
    requires b.epoch == a.epoch && a.sequence < row.sequence <= b.sequence && b.changes == a.changes + [row]
    requires Facets(b) == ApplyChange(Facets(a), row.change)
    ensures LogStep(a, b)
  {
    assert [row][..0] == [];
    assert Fold(Facets(a), [row]) == ApplyChange(Fold(Facets(a), []), row.change);
    assert LogAdvance(a, b, 0, [row]);
  }

  /** Steps that touch neither sessions nor entries nor the log, and move no Run out of line. */
  lemma QuietStep(a: World, b: World)
    requires Inv(a)
    requires b.db.epoch == a.db.epoch && b.db.sequence == a.db.sequence && b.db.committedAt == a.db.committedAt
    requires b.db.sessions == a.db.sessions && b.db.entries == a.db.entries && b.db.changes == a.db.changes
    requires ReceiptStep(a.db, b.db) && a.db.retained <= b.db.retained
    requires RunStep(a.db, b.db) && RunsOk(b.db) && SettlementsOk(b.db)
    requires a.disk.live <= b.disk.live && |b.db.runs| == |a.db.runs|
    ensures Good(a, b)
  {
    forall s | s in b.db.sessions && b.db.sessions[s].milestone.Some?
      ensures exists i: EntryId :: Backs(b.db, s, i)
    {
      var i: EntryId :| Backs(a.db, s, i);
      assert Backs(b.db, s, i);
    }
    UnloggedAdvance(a.db, b.db);
  }

  /** A new row for a known Session that keeps its timeline: only metadata and read state may differ. */
  ghost predicate RowMayFollow(db: Db, s: SessionId, row: Session) {
    && s in db.sessions
    && var was := db.sessions[s];
       && row.timelineRevision == was.timelineRevision && row.milestone == was.milestone
       && row.parent == was.parent && row.readThrough <= row.timelineRevision
       && row.readRevision >= was.readRevision
       && (row.readRevision == was.readRevision ==> ReadStateOf(row) == ReadStateOf(was))
       && (row.archived && !was.archived ==> !SessionHasActiveWork(db, s))
  }

  /** Milestones stay backed while rows and finished Runs stay. */
  lemma BackingStays(a: Db, b: Db)
    requires Reopens(a) && RunStep(a, b) && EntryStep(a, b)
    ensures forall s :: s in a.sessions && a.sessions[s].milestone.Some? ==> exists i: EntryId :: Backs(b, s, i)
  {
    forall s | s in a.sessions && a.sessions[s].milestone.Some?
      ensures exists i: EntryId :: Backs(b, s, i)
    {
      var i: EntryId :| Backs(a, s, i);
      assert Backs(b, s, i);
    }
  }

  lemma ReadStateIsOrdered(w: World, s: SessionId)
    requires Inv(w) && s in w.db.sessions
    ensures w.db.sessions[s].readThrough <= w.db.sessions[s].timelineRevision
  {}

  lemma ReplacedRowReopens(a: Db, s: SessionId, row: Session)
    requires Reopens(a) && RowMayFollow(a, s, row)
    ensures Reopens(PutSession(a, s, row))
  {
    BackingStays(a, PutSession(a, s, row));
    hide Backs;
  }

  lemma ReplacedRowKeepsRuns(a: Db, s: SessionId, row: Session)
    requires RunsOk(a) && RowMayFollow(a, s, row)
    ensures RunsOk(PutSession(a, s, row))
  {
    hide OrdersAreUnique, AtMostOneExecuting, QueueFollowsExecution;
  }

  lemma ReplacedRowKeepsEntries(a: Db, s: SessionId, row: Session)
    requires EntriesOk(a) && SettlementsOk(a) && RowMayFollow(a, s, row)
    ensures EntriesOk(PutSession(a, s, row)) && SettlementsOk(PutSession(a, s, row))
  {
    hide Dense;
  }

  lemma ReplacedRowReads(a: Db, s: SessionId, row: Session)
    requires RowMayFollow(a, s, row)
    ensures ReadStep(a, PutSession(a, s, row))
  {}

  lemma ReplacedRowKeepsTables(a: World, s: SessionId, row: Session)
    requires Inv(a) && RowMayFollow(a.db, s, row)
    ensures Inv(a.(db := PutSession(a.db, s, row)))
    ensures ReadStep(a.db, PutSession(a.db, s, row)) && TimelineStep(a.db, PutSession(a.db, s, row))
  {
    ReplacedRowReopens(a.db, s, row);
    ReplacedRowKeepsRuns(a.db, s, row);
    ReplacedRowKeepsEntries(a.db, s, row);
    ReplacedRowReads(a.db, s, row);
    SameTimelineViews(a.db, PutSession(a.db, s, row));
    hide Reopens, RunsOk, EntriesOk, SettlementsOk, TimelineStep, ReadStep;
  }

  lemma SameTimelineViews(a: Db, b: Db)
    requires b.entries == a.entries
    requires forall t :: t in a.sessions ==> t in b.sessions && b.sessions[t].timelineRevision == a.sessions[t].timelineRevision
    ensures TimelineStep(a, b)
  {
    forall t | t in a.sessions
      ensures TimelineMove(ViewOf(a, t), ViewOf(b, t))
    {
      assert ViewOf(a, t) == ViewOf(b, t);
    }
  }

  lemma LogAppendOk(a: Db, now: Time, change: Change)
    requires LogOk(a) && a.committedAt <= now
    ensures LogOk(Record(Bump(a, now), change))
  {}

  /** A change of one Session's metadata or read state, published in the log. */
  lemma PublishedRowStep(a: World, s: SessionId, row: Session, now: Time, change: Change)
    requires Inv(a) && a.db.committedAt <= now && RowMayFollow(a.db, s, row)
    requires ApplyChange(Facets(a.db), change) == Facets(a.db)[s := FacetOf(row)]
    ensures Good(a, a.(db := Record(Bump(PutSession(a.db, s, row), now), change)))
  {
    hide Inv, Good, TimelineStep, ReadStep;
    var put := a.(db := PutSession(a.db, s, row));
    ReplacedRowKeepsTables(a, s, row);
    assert Facets(put.db) == Facets(a.db)[s := FacetOf(row)];
    PublishStep(a, put, now, change);
  }

  /** Bumping the sequence and recording a change completes a step whose facets it describes. */
  lemma PublishStep(a: World, put: World, now: Time, change: Change)
    requires Inv(a) && Inv(put) && a.db.committedAt <= now
    requires put.db.epoch == a.db.epoch && put.db.sequence == a.db.sequence
             && put.db.committedAt == a.db.committedAt && put.db.changes == a.db.changes
             && ReceiptStep(a.db, put.db) && a.db.retained <= put.db.retained
    requires ReadStep(a.db, put.db) && TimelineStep(a.db, put.db) && RunStep(a.db, put.db) && EntryStep(a.db, put.db)
    requires ApplyChange(Facets(a.db), change) == Facets(put.db)
    ensures Good(a, put.(db := Record(Bump(put.db, now), change)))
  {
    var b := put.(db := Record(Bump(put.db, now), change));
    LogAppendOk(put.db, now, change);
    BackingStays(put.db, b.db);
    assert Facets(b.db) == Facets(put.db);
    LoggedAdvance(a.db, b.db, Logged(b.db.sequence, now, change));
    forall t | t in a.db.sessions
      ensures TimelineMove(ViewOf(a.db, t), ViewOf(b.db, t))
    {
      assert ViewOf(put.db, t) == ViewOf(b.db, t);
    }
  }

  /** Filing a receipt for a command that had none changes nothing else. */
  lemma FiledStep(a: World, b: World, env: Envelope, outcome: Outcome)
    requires Good(a, b) && env.commandId !in b.db.receipts
    ensures Good(a, b.(db := File(b.db, env, outcome)))
  {
    var c := b.(db := File(b.db, env, outcome));
    forall s | s in c.db.sessions && c.db.sessions[s].milestone.Some?
      ensures exists i: EntryId :: Backs(c.db, s, i)
    {
      var i: EntryId :| Backs(b.db, s, i);
      assert Backs(c.db, s, i);
    }
    assert Facets(c.db) == Facets(b.db);
    if Rotated(a.db, b.db) {
      assert Rotated(a.db, c.db);
    } else {
      var dropped: nat, rows :| LogAdvance(a.db, b.db, dropped, rows);
      assert LogAdvance(a.db, c.db, dropped, rows);
    }
    forall s | s in a.db.sessions
      ensures TimelineMove(ViewOf(a.db, s), ViewOf(c.db, s))
    {
      assert ViewOf(c.db, s) == ViewOf(b.db, s);
    }
  }

  lemma IdleStep(a: World)
    requires Inv(a)
    ensures Good(a, a)
  {
    QuietStep(a, a);
  }

  // ---------------------------------------------------------------- traces

  /** States that all satisfy the invariants, each a step after the one before. */
  ghost predicate Traced(states: seq<World>) {
    && (forall k :: 0 <= k < |states| ==> Inv(states[k]))
    && forall k :: 0 < k < |states| ==> Step(states[k - 1].db, states[k].db)
  }

  lemma TracedKeeps(states: seq<World>, k: nat)
    requires Traced(states) && k < |states|
    ensures Inv(states[k])
    ensures k > 0 ==> Step(states[k - 1].db, states[k].db)
  {
    hide Inv, Step;
  }
}
