/**
 What a fork copies: the rows and the Runs of the child, row by row against the parent's.
 */
module AuthorityForkOutcomes {
  import opened Options
  import opened AuthorityTables
  import opened AuthorityOperations
  import opened AuthorityInvariants
  import opened AuthoritySteps
  import opened AuthorityForkSteps
  import opened AuthorityOutcomes

  // ---------------------------------------------------------------- when a fork happens

  /** A finalized response with the checkpoint the caller names, and a new checkpoint for the child. */
  ghost predicate IsForkPoint(db: Db, parent: SessionId, point: EntryId, parentCheckpoint: string, childCheckpoint: string) {
    && parent in db.sessions && point < |db.entries|
    && db.entries[point].session == parent && db.entries[point].finalized && db.entries[point].kind.ResponseEntry?
    && db.entries[point].checkpoint == Some(parentCheckpoint)
    && childCheckpoint != "" && childCheckpoint != parentCheckpoint
  }

  /** Every row up to the point is finalized, and its Run has finished in this Session. */
  ghost predicate HistoryIsFinished(db: Db, parent: SessionId, order: nat) {
    forall i :: 0 <= i < |db.entries| && db.entries[i].session == parent && db.entries[i].order <= order ==>
      && db.entries[i].finalized && db.entries[i].run < |db.runs|
      && db.runs[db.entries[i].run].session == parent && db.runs[db.entries[i].run].state.Terminal()
  }

  function TargetProject(db: Db, parent: SessionId, project: Option<Option<ProjectId>>): Option<ProjectId>
    requires parent in db.sessions
  {
    if project.None? then db.sessions[parent].project else project.value
  }

  function TargetWorkspace(db: Db, parent: SessionId, workspace: Option<Option<WorkspaceId>>): Option<WorkspaceId>
    requires parent in db.sessions
  {
    if workspace.None? then db.sessions[parent].workspace else workspace.value
  }

  ghost predicate Forkable(db: Db, parent: SessionId, point: EntryId, project: Option<Option<ProjectId>>,
                           workspace: Option<Option<WorkspaceId>>, child: SessionId,
                           parentCheckpoint: string, childCheckpoint: string)
  {
    && IsForkPoint(db, parent, point, parentCheckpoint, childCheckpoint)
    && Creatable(db, child, TargetProject(db, parent, project), TargetWorkspace(db, parent, workspace), None)
    && HistoryIsFinished(db, parent, db.entries[point].order)
  }

  // ---------------------------------------------------------------- what it copies

  /** Row k of the child against row k of the parent. */
  ghost predicate CopiesRow(a: Db, b: Db, row: Entry, copy: Entry, child: SessionId, checkpoint: Option<string>) {
    && copy.session == child && copy.kind == row.kind && copy.text == row.text && copy.blob == row.blob
    && copy.order == row.order && copy.revision == row.revision && copy.finalized == row.finalized && copy.tool == row.tool
    && copy.checkpoint == checkpoint
    && row.run < |a.runs| && |a.runs| <= copy.run < |b.runs|
    && b.runs[copy.run].session == child && b.runs[copy.run].prompt == a.runs[row.run].prompt
    && b.runs[copy.run].order == a.runs[row.run].order && b.runs[copy.run].state == a.runs[row.run].state
  }

  ghost predicate Names(rows: seq<Entry>, r: RunId) { exists k :: 0 <= k < |rows| && rows[k].run == r }

  /**
   Rows against their copies; only the last row, the fork point, has the child's own checkpoint. Copies share a
   Run exactly if the rows do, and no Run is copied that no row names.
   */
  ghost predicate CopiesRows(a: Db, b: Db, rows: seq<Entry>, copies: seq<Entry>, child: SessionId, childCheckpoint: string) {
    && |copies| == |rows|
    && (forall k :: 0 <= k < |rows| ==>
          CopiesRow(a, b, rows[k], copies[k], child, if k == |rows| - 1 then Some(childCheckpoint) else rows[k].checkpoint))
    && (forall j, k :: 0 <= j < |rows| && 0 <= k < |rows| ==> (copies[j].run == copies[k].run <==> rows[j].run == rows[k].run))
    && forall r: RunId :: |a.runs| <= r < |b.runs| ==> Names(copies, r)
  }

  /** The child's timeline is the parent's up to the point, row by row. */
  ghost predicate CopiesTimeline(a: Db, b: Db, parent: SessionId, point: EntryId, child: SessionId, childCheckpoint: string)
    requires point < |a.entries|
  {
    var all, copies, n := Timeline(a.entries, parent), Timeline(b.entries, child), a.entries[point].order;
    && 1 <= n <= |all| && all[n - 1] == a.entries[point]
    && a.entries <= b.entries && |b.entries| == |a.entries| + n && a.runs <= b.runs
    && CopiesRows(a, b, all[..n], copies, child, childCheckpoint)
  }

  /** The child is new, read, asleep, named as all are, and descends from the point. */
  ghost predicate ForkOutcome(a: Db, b: Db, parent: SessionId, point: EntryId, project: Option<Option<ProjectId>>,
                              workspace: Option<Option<WorkspaceId>>, child: SessionId, childCheckpoint: string, now: Time)
    requires parent in a.sessions && point < |a.entries|
  {
    && CopiesTimeline(a, b, parent, point, child, childCheckpoint)
    && OnlySession(a, b, child)
    && var row, n := b.sessions[child], a.entries[point].order;
       && row.name == "Untitled Session" && !row.archived && !row.resident && row.metadataRevision == 1
       && row.project == TargetProject(a, parent, project) && row.workspace == TargetWorkspace(a, parent, workspace)
       && row.parent == Some((parent, point))
       && row.timelineRevision == n + 1 && row.milestone == Some(n + 1) && ReadStateOf(row) == ReadState(n + 1, false, 1)
       && Publishes(a, b, now, SessionForked(child, SummaryOf(row)))
       && b.interactions == a.interactions && b.receipts == a.receipts && SameCatalog(a, b)
  }

  // ---------------------------------------------------------------- the rows up to a point

  lemma {:induction false} RowIsListed(entries: seq<Entry>, s: SessionId, i: nat) returns (k: nat)
    requires i < |entries| && entries[i].session == s
    ensures k < |Timeline(entries, s)| && Timeline(entries, s)[k] == entries[i]
  {
    var n := |entries| - 1;
    if i < n {
      k := RowIsListed(entries[..n], s, i);
    } else {
      k := |Timeline(entries, s)| - 1;
    }
  }

  lemma RowAtItsOrder(entries: seq<Entry>, s: SessionId, i: nat)
    requires Dense(entries) && i < |entries| && entries[i].session == s
    ensures 1 <= entries[i].order <= |Timeline(entries, s)| && Timeline(entries, s)[entries[i].order - 1] == entries[i]
  {
    TimelineOrders(entries, s);
    var k := RowIsListed(entries, s, i);
    hide Dense, Timeline;
  }

  /** The rows of a timeline up to the order of one of its rows. */
  lemma RowsUpTo(entries: seq<Entry>, s: SessionId, i: nat)
    requires Dense(entries) && i < |entries| && entries[i].session == s
    ensures var all, n := Timeline(entries, s), entries[i].order;
            && 1 <= n <= |all| && UpTo(all, n) == all[..n] && all[n - 1] == entries[i]
            && forall k :: 0 <= k < n ==> UpTo(all, n)[k].order == k + 1
  {
    RowAtItsOrder(entries, s, i);
    TimelineOrders(entries, s);
    UpToIsPrefix(Timeline(entries, s), entries[i].order);
  }

  lemma {:induction false} TimelineOfCopies(entries: seq<Entry>, copies: seq<Entry>, child: SessionId)
    requires Timeline(entries, child) == [] && forall k :: 0 <= k < |copies| ==> copies[k].session == child
    ensures Timeline(entries + copies, child) == copies
  {
    if copies == [] {
      assert entries + copies == entries;
    } else {
      var front := copies[..|copies| - 1];
      TimelineOfCopies(entries, front, child);
      assert entries + copies == (entries + front) + [copies[|copies| - 1]];
      AppendedTimeline(entries + front, copies[|copies| - 1], child);
    }
  }

  // ---------------------------------------------------------------- the Runs they name

  lemma {:induction false} CopiedRunsAre(runs: seq<Run>, s: SessionId, rows: seq<Entry>, r: RunId)
    ensures r in CopiedRuns(runs, s, rows) <==>
              r < |runs| && runs[r].session == s && runs[r].state.Terminal() && exists k :: 0 <= k < |rows| && rows[k].run == r
  {
    if runs != [] {
      CopiedRunsAre(runs[..|runs| - 1], s, rows, r);
    }
  }

  /** The rows can be copied exactly if the parent's history up to the point is finished. */
  lemma CopyableExactlyIfFinished(db: Db, parent: SessionId, order: nat, rows: seq<Entry>)
    requires Dense(db.entries) && order <= |Timeline(db.entries, parent)| && rows == Timeline(db.entries, parent)[..order]
    ensures Copyable(rows, CopiedRuns(db.runs, parent, rows)) <==> HistoryIsFinished(db, parent, order)
  {
    var ids := CopiedRuns(db.runs, parent, rows);
    if HistoryIsFinished(db, parent, order) {
      forall k | 0 <= k < |rows|
        ensures rows[k].finalized && rows[k].run in ids
      {
        TimelineOrders(db.entries, parent);
        var i := TimelineRows(db.entries, parent, k);
        CopiedRunsAre(db.runs, parent, rows, rows[k].run);
      }
    }
    if Copyable(rows, ids) {
      forall i | 0 <= i < |db.entries| && db.entries[i].session == parent && db.entries[i].order <= order
        ensures db.entries[i].finalized && db.entries[i].run < |db.runs|
        ensures db.runs[db.entries[i].run].session == parent && db.runs[db.entries[i].run].state.Terminal()
      {
        RowAtItsOrder(db.entries, parent, i);
        assert rows[db.entries[i].order - 1] == db.entries[i];
        CopiedRunsAre(db.runs, parent, rows, db.entries[i].run);
      }
    }
  }

  lemma {:induction false} IndexOfDistinct(ids: seq<RunId>, j: nat)
    requires j < |ids| && forall i, k :: 0 <= i < k < |ids| ==> ids[i] < ids[k]
    ensures IndexOf(ids, ids[j]) == Some(j)
  {
    if j < |ids| - 1 {
      IndexOfDistinct(ids[..|ids| - 1], j);
    }
  }

  /** Each copied row, and the Run it names. */
  lemma ChildRowsCopy(a: Db, b: Db, rows: seq<Entry>, ids: seq<RunId>, child: SessionId, point: nat, checkpoint: string)
    requires Copyable(rows, ids) && (forall k :: 0 <= k < |ids| ==> ids[k] < |a.runs|)
    requires forall k :: 0 <= k < |rows| ==> rows[k].order == k + 1
    requires b.runs == a.runs + ChildRuns(a.runs, ids, child)
    ensures var copies := ChildEntries(rows, ids, |a.runs|, child, point, checkpoint);
            && |copies| == |rows|
            && (forall k :: 0 <= k < |rows| ==>
                  CopiesRow(a, b, rows[k], copies[k], child, if k + 1 == point then Some(checkpoint) else rows[k].checkpoint))
            && (forall j, k :: 0 <= j < |rows| && 0 <= k < |rows| ==> (copies[j].run == copies[k].run <==> rows[j].run == rows[k].run))
  {
    var copies := ChildEntries(rows, ids, |a.runs|, child, point, checkpoint);
    hide IndexOf;
    forall k | 0 <= k < |rows|
      ensures CopiesRow(a, b, rows[k], copies[k], child, if k + 1 == point then Some(checkpoint) else rows[k].checkpoint)
      ensures IndexOf(ids, rows[k].run).Some? && copies[k].run == |a.runs| + IndexOf(ids, rows[k].run).value
    {
      assert rows[k].run in ids;
      var j := IndexOf(ids, rows[k].run).value;
      assert b.runs[|a.runs| + j] == a.runs[ids[j]].(session := child);
    }
    hide ChildEntries, ChildRuns, CopiesRow;
  }

  /** Every copied Run is named by a copied row. */
  lemma CopiedRunsAreNamed(a: Db, rows: seq<Entry>, parent: SessionId, child: SessionId, point: nat, checkpoint: string, j: nat)
    requires var ids := CopiedRuns(a.runs, parent, rows); Copyable(rows, ids) && j < |ids|
    ensures var ids := CopiedRuns(a.runs, parent, rows);
            Names(ChildEntries(rows, ids, |a.runs|, child, point, checkpoint), |a.runs| + j)
  {
    var ids := CopiedRuns(a.runs, parent, rows);
    CopiedRunsAre(a.runs, parent, rows, ids[j]);
    CopiedRunsAscend(a.runs, parent, rows);
    IndexOfDistinct(ids, j);
    var k :| 0 <= k < |rows| && rows[k].run == ids[j];
    assert ChildEntries(rows, ids, |a.runs|, child, point, checkpoint)[k].run == |a.runs| + j;
  }

  // ---------------------------------------------------------------- the fork

  lemma CopiesMeet(a: Db, b: Db, parent: SessionId, child: SessionId, checkpoint: string, rows: seq<Entry>, ids: seq<RunId>)
    requires ids == CopiedRuns(a.runs, parent, rows) && Copyable(rows, ids) && forall k :: 0 <= k < |ids| ==> ids[k] < |a.runs|
    requires b.runs == a.runs + ChildRuns(a.runs, ids, child)
    requires forall k :: 0 <= k < |rows| ==> rows[k].order == k + 1
    ensures var copies := ChildEntries(rows, ids, |a.runs|, child, |rows|, checkpoint);
            CopiesRows(a, b, rows, copies, child, checkpoint) && forall k :: 0 <= k < |copies| ==> copies[k].session == child
  {
    var n := |rows|;
    var copies := ChildEntries(rows, ids, |a.runs|, child, n, checkpoint);
    ChildRowsCopy(a, b, rows, ids, child, n, checkpoint);
    ChildRowsAreTheChilds(rows, ids, |a.runs|, child, n, checkpoint);
    ChildRunCount(a.runs, ids, child);
    hide ChildRuns, ChildEntries, Copyable, CopiesRow, Names, CopiedRuns;
    forall r: RunId | |a.runs| <= r < |b.runs|
      ensures Names(copies, r)
    {
      CopiedRunsAreNamed(a, rows, parent, child, n, checkpoint, r - |a.runs|);
    }
  }

  lemma CopyingMeets(a: Db, b: Db, parent: SessionId, point: EntryId, child: SessionId, checkpoint: string,
                     rows: seq<Entry>, ids: seq<RunId>)
    requires Dense(a.entries) && point < |a.entries| && a.entries[point].session == parent
    requires Timeline(a.entries, child) == []
    requires rows == UpTo(Timeline(a.entries, parent), a.entries[point].order)
    requires ids == CopiedRuns(a.runs, parent, rows) && Copyable(rows, ids) && forall k :: 0 <= k < |ids| ==> ids[k] < |a.runs|
    requires b.runs == a.runs + ChildRuns(a.runs, ids, child)
    requires b.entries == a.entries + ChildEntries(rows, ids, |a.runs|, child, a.entries[point].order, checkpoint)
    ensures CopiesTimeline(a, b, parent, point, child, checkpoint)
  {
    RowsUpTo(a.entries, parent, point);
    hide Dense, Timeline, UpTo, CopiedRuns, ChildRuns, ChildEntries, Copyable, CopiesRows;
    var copies := ChildEntries(rows, ids, |a.runs|, child, |rows|, checkpoint);
    CopiesMeet(a, b, parent, child, checkpoint, rows, ids);
    TimelineOfCopies(a.entries, copies, child);
    CopiesCount(rows, ids, |a.runs|, child, |rows|, checkpoint);
  }

  lemma CopiesCount(rows: seq<Entry>, ids: seq<RunId>, base: RunId, child: SessionId, point: nat, checkpoint: string)
    requires Copyable(rows, ids)
    ensures |ChildEntries(rows, ids, base, child, point, checkpoint)| == |rows|
  {}

  lemma ChildRunCount(runs: seq<Run>, ids: seq<RunId>, child: SessionId)
    requires forall k :: 0 <= k < |ids| ==> ids[k] < |runs|
    ensures |ChildRuns(runs, ids, child)| == |ids|
  {}

  lemma ChildRowsAreTheChilds(rows: seq<Entry>, ids: seq<RunId>, base: RunId, child: SessionId, point: nat, checkpoint: string)
    requires Copyable(rows, ids)
    ensures var copies := ChildEntries(rows, ids, base, child, point, checkpoint);
            |copies| == |rows| && forall k :: 0 <= k < |copies| ==> copies[k].session == child
  {}

  /** The rows and Runs a fork works on. */
  lemma ForkRows(db: Db, parent: SessionId, point: EntryId, rows: seq<Entry>, ids: seq<RunId>)
    requires Dense(db.entries) && point < |db.entries| && db.entries[point].session == parent
    requires rows == UpTo(Timeline(db.entries, parent), db.entries[point].order) && ids == CopiedRuns(db.runs, parent, rows)
    ensures forall k :: 0 <= k < |ids| ==> ids[k] < |db.runs|
    ensures |rows| == db.entries[point].order && rows != [] && rows[|rows| - 1] == db.entries[point]
    ensures forall k :: 0 <= k < |rows| ==> rows[k].order == k + 1
    ensures Copyable(rows, ids) <==> HistoryIsFinished(db, parent, db.entries[point].order)
  {
    CopiedRunsExist(db.runs, parent, rows);
    RowsUpTo(db.entries, parent, point);
    CopyableExactlyIfFinished(db, parent, db.entries[point].order, rows);
  }

  lemma ForkRefuses(w: World, parent: SessionId, point: EntryId, project: Option<Option<ProjectId>>,
                    workspace: Option<Option<WorkspaceId>>, child: SessionId, parentCheckpoint: string,
                    childCheckpoint: string, now: Time)
    requires Dense(w.db.entries)
    requires !Forkable(w.db, parent, point, project, workspace, child, parentCheckpoint, childCheckpoint)
    ensures Fork(w, parent, point, project, workspace, child, parentCheckpoint, childCheckpoint, now) == w
  {
    var db := w.db;
    if IsForkPoint(db, parent, point, parentCheckpoint, childCheckpoint) {
      var rows := UpTo(Timeline(db.entries, parent), db.entries[point].order);
      ForkRows(db, parent, point, rows, CopiedRuns(db.runs, parent, rows));
      hide Dense, HistoryIsFinished, Copyable, Timeline, UpTo, CopiedRuns;
    }
  }

  /** The child's row in the table of Sessions. */
  function ChildRow(db: Db, parent: SessionId, point: EntryId, project: Option<Option<ProjectId>>,
                    workspace: Option<Option<WorkspaceId>>, copies: seq<Entry>): Session
    requires parent in db.sessions
  {
    Session(TargetProject(db, parent, project), TargetWorkspace(db, parent, workspace), "Untitled Session", false, false,
            1, |copies| + 1, |copies| + 1, 1, LastMilestone(copies), Some((parent, point)))
  }

  /** The tables after a fork's inserts. */
  function Inserted(db: Db, runs: seq<Run>, copies: seq<Entry>, child: SessionId, row: Session, now: Time): Db {
    Record(Bump(PutSession(db.(runs := db.runs + runs, entries := db.entries + copies), child, row), now),
           SessionForked(child, SummaryOf(row)))
  }

  lemma ForkInserts(w: World, parent: SessionId, point: EntryId, project: Option<Option<ProjectId>>,
                    workspace: Option<Option<WorkspaceId>>, child: SessionId, parentCheckpoint: string,
                    childCheckpoint: string, now: Time, rows: seq<Entry>, ids: seq<RunId>)
    requires Forkable(w.db, parent, point, project, workspace, child, parentCheckpoint, childCheckpoint)
    requires rows == UpTo(Timeline(w.db.entries, parent), w.db.entries[point].order)
    requires ids == CopiedRuns(w.db.runs, parent, rows) && Copyable(rows, ids) && forall k :: 0 <= k < |ids| ==> ids[k] < |w.db.runs|
    ensures var db := w.db;
            var copies := ChildEntries(rows, ids, |db.runs|, child, db.entries[point].order, childCheckpoint);
            Fork(w, parent, point, project, workspace, child, parentCheckpoint, childCheckpoint, now)
            == w.(db := Inserted(db, ChildRuns(db.runs, ids, child), copies, child,
                                 ChildRow(db, parent, point, project, workspace, copies), now))
  {
    hide HistoryIsFinished, Copyable, Timeline, UpTo, CopiedRuns, ChildRuns, ChildEntries, LastMilestone, SummaryOf;
  }

  lemma InsertedIsPublished(db: Db, runs: seq<Run>, copies: seq<Entry>, child: SessionId, row: Session, now: Time)
    requires child !in db.sessions
    ensures var b := Inserted(db, runs, copies, child, row, now);
            && OnlySession(db, b, child) && b.sessions[child] == row && Publishes(db, b, now, SessionForked(child, SummaryOf(row)))
            && b.runs == db.runs + runs && b.entries == db.entries + copies
            && b.interactions == db.interactions && b.receipts == db.receipts && SameCatalog(db, b)
  {
    hide SummaryOf;
  }

  lemma ForkCopies(w: World, parent: SessionId, point: EntryId, project: Option<Option<ProjectId>>,
                   workspace: Option<Option<WorkspaceId>>, child: SessionId, parentCheckpoint: string,
                   childCheckpoint: string, now: Time)
    requires Dense(w.db.entries) && forall i :: 0 <= i < |w.db.entries| ==> w.db.entries[i].session in w.db.sessions
    requires Forkable(w.db, parent, point, project, workspace, child, parentCheckpoint, childCheckpoint)
    ensures var b := Fork(w, parent, point, project, workspace, child, parentCheckpoint, childCheckpoint, now);
            ForkOutcome(w.db, b.db, parent, point, project, workspace, child, childCheckpoint, now) && b.disk == w.disk
  {
    var db := w.db;
    var rows := UpTo(Timeline(db.entries, parent), db.entries[point].order);
    var ids := CopiedRuns(db.runs, parent, rows);
    ForkRows(db, parent, point, rows, ids);
    NoRows(db.entries, child);
    hide Dense, HistoryIsFinished, Copyable, Timeline, UpTo, CopiedRuns, ChildRuns, ChildEntries, CopiesTimeline, Fork, Inserted;
    hide OnlySession, SameCatalog, Publishes;
    ForkInserts(w, parent, point, project, workspace, child, parentCheckpoint, childCheckpoint, now, rows, ids);
    var copies := ChildEntries(rows, ids, |db.runs|, child, db.entries[point].order, childCheckpoint);
    var row := ChildRow(db, parent, point, project, workspace, copies);
    InsertedIsPublished(db, ChildRuns(db.runs, ids, child), copies, child, row, now);
    ChildRowsAreTheChilds(rows, ids, |db.runs|, child, db.entries[point].order, childCheckpoint);
    MilestonesAreRead(rows, ids, |db.runs|, child, db.entries[point].order, childCheckpoint);
    CopyingMeets(db, Inserted(db, ChildRuns(db.runs, ids, child), copies, child, row, now),
                 parent, point, child, childCheckpoint, rows, ids);
  }

  /** A fork happens exactly if it may, and then copies the timeline up to the point. */
  lemma ForkMeets(w: World, parent: SessionId, point: EntryId, project: Option<Option<ProjectId>>,
                  workspace: Option<Option<WorkspaceId>>, child: SessionId, parentCheckpoint: string,
                  childCheckpoint: string, now: Time)
    requires Inv(w)
    ensures var b := Fork(w, parent, point, project, workspace, child, parentCheckpoint, childCheckpoint, now);
            && b.disk == w.disk
            && if Forkable(w.db, parent, point, project, workspace, child, parentCheckpoint, childCheckpoint)
               then ForkOutcome(w.db, b.db, parent, point, project, workspace, child, childCheckpoint, now)
               else b == w
  {
    ReadStatesAreOrdered(w);
    EntriesHaveSessions(w);
    hide Inv, Dense, Fork, ForkOutcome;
    if Forkable(w.db, parent, point, project, workspace, child, parentCheckpoint, childCheckpoint) {
      ForkCopies(w, parent, point, project, workspace, child, parentCheckpoint, childCheckpoint, now);
    } else {
      ForkRefuses(w, parent, point, project, workspace, child, parentCheckpoint, childCheckpoint, now);
    }
  }

  lemma EntriesHaveSessions(w: World)
    requires Inv(w)
    ensures forall i :: 0 <= i < |w.db.entries| ==> w.db.entries[i].session in w.db.sessions
  {}

  /** The fork point is the latest milestone copied, so the child is read. */
  lemma MilestonesAreRead(rows: seq<Entry>, ids: seq<RunId>, base: RunId, child: SessionId, point: nat, checkpoint: string)
    requires Copyable(rows, ids)
    requires rows != [] && rows[|rows| - 1].kind.ResponseEntry? && forall k :: 0 <= k < |rows| ==> rows[k].order == k + 1
    ensures LastMilestone(ChildEntries(rows, ids, base, child, point, checkpoint)) == Some(|rows| + 1)
  {
    var copies := ChildEntries(rows, ids, base, child, point, checkpoint);
    LastMilestoneBound(copies[..|rows| - 1], |rows| - 1);
  }
}
