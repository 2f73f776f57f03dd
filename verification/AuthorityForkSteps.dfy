/**
 Forking copies a prefix of a timeline, with its finished Runs, into a new Session.
 */
module AuthorityForkSteps {
  import opened Options
  import opened AuthorityTables
  import opened AuthorityOperations
  import opened AuthorityInvariants
  import opened AuthoritySteps

  // ---------------------------------------------------------------- the copied rows

  /** In a timeline numbered from 1, the rows up to an order are a prefix. */
  lemma {:induction false} UpToIsPrefix(rows: seq<Entry>, order: nat)
    requires forall k :: 0 <= k < |rows| ==> rows[k].order == k + 1
    ensures UpTo(rows, order) == rows[..if order < |rows| then order else |rows|]
  {
    if rows != [] {
      UpToIsPrefix(rows[..|rows| - 1], order);
    }
  }

  /** The rows a fork copies are numbered from 1 and are rows of the table. */
  lemma CopiedRows(entries: seq<Entry>, s: SessionId, order: nat)
    requires Dense(entries)
    ensures var rows := UpTo(Timeline(entries, s), order);
            forall k :: 0 <= k < |rows| ==> rows[k].order == k + 1 && rows[k] in entries
  {
    var all := Timeline(entries, s);
    TimelineOrders(entries, s);
    UpToIsPrefix(all, order);
    var rows := UpTo(all, order);
    hide Dense, Timeline, UpTo;
    forall k | 0 <= k < |rows|
      ensures rows[k] in entries
    {
      var i := TimelineRows(entries, s, k);
      assert entries[i] == rows[k];
    }
  }

  lemma {:induction false} CopiedRunsAscend(runs: seq<Run>, s: SessionId, rows: seq<Entry>)
    ensures forall j, k :: 0 <= j < k < |CopiedRuns(runs, s, rows)| ==>
              CopiedRuns(runs, s, rows)[j] < CopiedRuns(runs, s, rows)[k] < |runs|
    ensures forall k :: 0 <= k < |CopiedRuns(runs, s, rows)| ==> CopiedRuns(runs, s, rows)[k] < |runs|
  {
    if runs != [] {
      CopiedRunsAscend(runs[..|runs| - 1], s, rows);
    }
  }

  lemma {:induction false} LastMilestoneBound(rows: seq<Entry>, bound: nat)
    requires forall k :: 0 <= k < |rows| ==> rows[k].order <= bound
    ensures LastMilestone(rows).Some? ==> rows != [] && LastMilestone(rows).value <= bound + 1
  {
    if rows != [] {
      LastMilestoneBound(rows[..|rows| - 1], bound);
    }
  }

  // ---------------------------------------------------------------- appending them

  /** Rows numbered from 1 for a Session that has none keep the table dense. */
  lemma {:induction false} AppendedCopiesAreDense(entries: seq<Entry>, copies: seq<Entry>, child: SessionId)
    requires Dense(entries) && Timeline(entries, child) == []
    requires forall k :: 0 <= k < |copies| ==> copies[k].session == child && copies[k].order == k + 1
    ensures Dense(entries + copies) && |Timeline(entries + copies, child)| == |copies|
  {
    if copies == [] {
      assert entries + copies == entries;
    } else {
      var front := copies[..|copies| - 1];
      var last := copies[|copies| - 1];
      AppendedCopiesAreDense(entries, front, child);
      assert entries + copies == (entries + front) + [last];
      DenseAppend(entries + front, last);
      AppendedTimeline(entries + front, last, child);
    }
  }

  lemma {:induction false} CopiesSumElsewhere(entries: seq<Entry>, copies: seq<Entry>, s: SessionId)
    requires forall k :: 0 <= k < |copies| ==> copies[k].session != s
    ensures RevisionSum(entries + copies, s) == RevisionSum(entries, s)
  {
    if copies == [] {
      assert entries + copies == entries;
    } else {
      var front := copies[..|copies| - 1];
      CopiesSumElsewhere(entries, front, s);
      assert entries + copies == (entries + front) + [copies[|copies| - 1]];
      AppendedRevisionSum(entries + front, copies[|copies| - 1], s);
    }
  }

  lemma {:induction false} CopiesSettleElsewhere(entries: seq<Entry>, copies: seq<Entry>, r: RunId)
    requires forall k :: 0 <= k < |copies| ==> copies[k].run != r
    ensures SettlementCount(entries + copies, r) == SettlementCount(entries, r)
  {
    if copies == [] {
      assert entries + copies == entries;
    } else {
      var front := copies[..|copies| - 1];
      CopiesSettleElsewhere(entries, front, r);
      assert entries + copies == (entries + front) + [copies[|copies| - 1]];
      AppendedSettlementCount(entries + front, copies[|copies| - 1], r);
    }
  }

  /** What a fork inserts, with what makes it insertable. */
  ghost predicate ForkedInto(a: Db, b: Db, child: SessionId, runs: seq<Run>, copies: seq<Entry>, row: Session) {
    && child !in a.sessions
    && b == a.(runs := a.runs + runs, entries := a.entries + copies, sessions := a.sessions[child := row])
    && (forall k :: 0 <= k < |runs| ==> runs[k].session == child && runs[k].state.Terminal())
    && (forall j, k :: 0 <= j < |runs| && 0 <= k < |runs| && runs[j].order == runs[k].order ==> j == k)
    && (forall k :: 0 <= k < |copies| ==>
          && copies[k].session == child && copies[k].order == k + 1 && copies[k].revision >= 1
          && |a.runs| <= copies[k].run < |a.runs| + |runs|)
    && row.timelineRevision == |copies| + 1 == row.readThrough && row.readRevision == 1
    && row.milestone == LastMilestone(copies) && row.parent.Some? && !row.archived
  }

  /** Copied rows name copied Runs only. */
  lemma ForkedCounts(a: Db, b: Db, child: SessionId, runs: seq<Run>, copies: seq<Entry>, row: Session)
    requires ForkedInto(a, b, child, runs, copies, row)
    ensures forall r :: 0 <= r < |a.runs| ==> SettlementCount(b.entries, r) == SettlementCount(a.entries, r)
    ensures SettlementsStay(a, b)
  {
    forall r | 0 <= r < |a.runs|
      ensures SettlementCount(b.entries, r) == SettlementCount(a.entries, r)
    {
      CopiesSettleElsewhere(a.entries, copies, r);
    }
  }

  lemma ForkedRuns(a: Db, b: Db, child: SessionId, runs: seq<Run>, copies: seq<Entry>, row: Session)
    requires RunsOk(a) && ForkedInto(a, b, child, runs, copies, row)
    ensures RunsOk(b) && RunStep(a, b)
  {
    forall i, j | 0 <= i < |b.runs| && 0 <= j < |b.runs| && b.runs[i].session == b.runs[j].session
                  && b.runs[i].order == b.runs[j].order
      ensures i == j
    {
      if i >= |a.runs| && j >= |a.runs| {
        assert runs[i - |a.runs|].order == runs[j - |a.runs|].order;
      }
    }
    assert OrdersAreUnique(b.runs);
    ForkedCounts(a, b, child, runs, copies, row);
  }

  lemma ForkedRows(a: Db, b: Db, child: SessionId, runs: seq<Run>, copies: seq<Entry>, row: Session)
    requires EntriesOk(a) && ForkedInto(a, b, child, runs, copies, row)
    ensures EntryStep(a, b)
    ensures forall i :: 0 <= i < |b.entries| ==> b.entries[i].session in b.sessions && b.entries[i].revision >= 1
    ensures forall i :: 0 <= i < |b.entries| && b.entries[i].kind.Settles() ==> b.entries[i].run < |b.runs|
  {
    hide Dense;
    forall i | 0 <= i < |b.entries|
      ensures b.entries[i].session in b.sessions && b.entries[i].revision >= 1
      ensures b.entries[i].kind.Settles() ==> b.entries[i].run < |b.runs|
    {
      if i >= |a.entries| {
        assert b.entries[i] == copies[i - |a.entries|];
      }
    }
  }

  lemma ForkedEntries(a: Db, b: Db, child: SessionId, runs: seq<Run>, copies: seq<Entry>, row: Session)
    requires EntriesOk(a) && ForkedInto(a, b, child, runs, copies, row)
    ensures EntriesOk(b) && EntryStep(a, b)
  {
    ForkedRows(a, b, child, runs, copies, row);
    NoRows(a.entries, child);
    AppendedCopiesAreDense(a.entries, copies, child);
    hide Dense;
    forall s | s in b.sessions && b.sessions[s].parent.None?
      ensures b.sessions[s].timelineRevision == 1 + RevisionSum(b.entries, s)
    {
      CopiesSumElsewhere(a.entries, copies, s);
    }
  }

  lemma ForkedSettlements(a: Db, b: Db, child: SessionId, runs: seq<Run>, copies: seq<Entry>, row: Session)
    requires RunsOk(a) && SettlementsOk(a) && ForkedInto(a, b, child, runs, copies, row)
    ensures SettlementsOk(b)
  {
    ForkedCounts(a, b, child, runs, copies, row);
    forall r | |a.runs| <= r < |b.runs|
      ensures b.runs[r].state.Terminal() && b.runs[r].session == child
    {
      assert b.runs[r] == runs[r - |a.runs|];
    }
  }

  lemma ForkedReads(a: Db, b: Db, child: SessionId, runs: seq<Run>, copies: seq<Entry>, row: Session)
    requires Reopens(a) && RunStep(a, b) && EntryStep(a, b) && ForkedInto(a, b, child, runs, copies, row)
    ensures Reopens(b) && ReadStep(a, b)
  {
    BackingStays(a, b);
    LastMilestoneBound(copies, |copies|);
    if row.milestone.Some? {
      assert b.entries[|a.entries|] == copies[0];
      assert b.runs[copies[0].run] == runs[copies[0].run - |a.runs|];
      assert Backs(b, child, |a.entries|);
    }
  }

  lemma ForkedTimelines(a: Db, b: Db, child: SessionId, runs: seq<Run>, copies: seq<Entry>, row: Session)
    requires ForkedInto(a, b, child, runs, copies, row)
    ensures TimelineStep(a, b) && Facets(b) == Facets(a)[child := FacetOf(row)]
  {
    forall s | s in a.sessions
      ensures TimelineMove(ViewOf(a, s), ViewOf(b, s))
    {
      ForkKeepsView(a, b, child, runs, copies, row, s);
    }
    hide TimelineMove, ViewOf;
    ForkedFacets(a, b, child, row);
  }

  lemma ForkedFacets(a: Db, b: Db, child: SessionId, row: Session)
    requires b.sessions == a.sessions[child := row]
    ensures Facets(b) == Facets(a)[child := FacetOf(row)]
  {}

  lemma ForkKeepsView(a: Db, b: Db, child: SessionId, runs: seq<Run>, copies: seq<Entry>, row: Session, s: SessionId)
    requires ForkedInto(a, b, child, runs, copies, row) && s in a.sessions
    ensures s in b.sessions && TimelineMove(ViewOf(a, s), ViewOf(b, s))
  {
    assert ViewOf(a, s).rows == ViewOf(b, s).rows;
  }

  lemma ForkedStep(w: World, b: World, child: SessionId, runs: seq<Run>, copies: seq<Entry>, row: Session, now: Time)
    requires Inv(w) && w.db.committedAt <= now && ForkedInto(w.db, b.db, child, runs, copies, row)
    requires BlobsOk(b)
    ensures Good(w, b.(db := Record(Bump(b.db, now), SessionForked(child, SummaryOf(row)))))
  {
    ForkedRuns(w.db, b.db, child, runs, copies, row);
    ForkedEntries(w.db, b.db, child, runs, copies, row);
    ForkedSettlements(w.db, b.db, child, runs, copies, row);
    ForkedReads(w.db, b.db, child, runs, copies, row);
    ForkedTimelines(w.db, b.db, child, runs, copies, row);
    hide RunsOk, EntriesOk, SettlementsOk, Reopens, TimelineStep, EntryStep, RunStep, ReadStep, Facets, Good, BlobsOk;
    assert Inv(b);
    PublishStep(w, b, now, SessionForked(child, SummaryOf(row)));
  }

  // ---------------------------------------------------------------- the operation

  lemma CopiesFit(w: World, parent: SessionId, point: EntryId, child: SessionId, checkpoint: string,
                  rows: seq<Entry>, ids: seq<RunId>)
    requires Inv(w) && point < |w.db.entries| && rows == UpTo(Timeline(w.db.entries, parent), w.db.entries[point].order)
    requires ids == CopiedRuns(w.db.runs, parent, rows) && Copyable(rows, ids)
    ensures var copies := ChildEntries(rows, ids, |w.db.runs|, child, w.db.entries[point].order, checkpoint);
            forall k :: 0 <= k < |copies| ==>
              && copies[k].session == child && copies[k].order == k + 1 && copies[k].revision >= 1
              && |w.db.runs| <= copies[k].run < |w.db.runs| + |ids|
              && (copies[k].blob.Some? ==> copies[k].blob.value in w.disk.live)
  {
    CopiedRows(w.db.entries, parent, w.db.entries[point].order);
  }

  lemma ChildRunsFit(db: Db, parent: SessionId, child: SessionId, rows: seq<Entry>, ids: seq<RunId>)
    requires RunsOk(db) && ids == CopiedRuns(db.runs, parent, rows)
    ensures forall k :: 0 <= k < |ids| ==> ids[k] < |db.runs|
    ensures var runs := ChildRuns(db.runs, ids, child);
            && (forall k :: 0 <= k < |runs| ==> runs[k].session == child && runs[k].state.Terminal())
            && (forall j, k :: 0 <= j < |runs| && 0 <= k < |runs| && runs[j].order == runs[k].order ==> j == k)
  {
    CopiedRunsExist(db.runs, parent, rows);
    CopiedRunsAscend(db.runs, parent, rows);
    var runs := ChildRuns(db.runs, ids, child);
    forall j, k | 0 <= j < |runs| && 0 <= k < |runs| && runs[j].order == runs[k].order
      ensures j == k
    {
      assert db.runs[ids[j]].order == db.runs[ids[k]].order;
      assert ids[j] == ids[k];
    }
  }

  lemma ForkedCopyStep(w: World, parent: SessionId, point: EntryId, child: SessionId, checkpoint: string,
                       rows: seq<Entry>, ids: seq<RunId>, row: Session, now: Time)
    requires Inv(w) && w.db.committedAt <= now && point < |w.db.entries| && child !in w.db.sessions
    requires rows == UpTo(Timeline(w.db.entries, parent), w.db.entries[point].order)
    requires ids == CopiedRuns(w.db.runs, parent, rows) && Copyable(rows, ids)
    requires forall k :: 0 <= k < |ids| ==> ids[k] < |w.db.runs|
    requires row.timelineRevision == |rows| + 1 == row.readThrough && row.readRevision == 1
             && row.parent.Some? && !row.archived
    requires row.milestone
             == LastMilestone(ChildEntries(rows, ids, |w.db.runs|, child, w.db.entries[point].order, checkpoint))
    ensures var copies := ChildEntries(rows, ids, |w.db.runs|, child, w.db.entries[point].order, checkpoint);
            var inserted := PutSession(
              w.db.(runs := w.db.runs + ChildRuns(w.db.runs, ids, child), entries := w.db.entries + copies), child, row);
            Good(w, w.(db := Record(Bump(inserted, now), SessionForked(child, SummaryOf(row)))))
  {
    var copies := ChildEntries(rows, ids, |w.db.runs|, child, w.db.entries[point].order, checkpoint);
    var runs := ChildRuns(w.db.runs, ids, child);
    CopiesFit(w, parent, point, child, checkpoint, rows, ids);
    ChildRunsFit(w.db, parent, child, rows, ids);
    hide Reopens, RunsOk, EntriesOk, SettlementsOk, LogOk, Good;
    hide ChildRuns, ChildEntries, UpTo, Timeline, CopiedRuns, LastMilestone, Copyable;
    assert |runs| == |ids| && |copies| == |rows|;
    var b := w.(db := w.db.(runs := w.db.runs + runs, entries := w.db.entries + copies,
                            sessions := w.db.sessions[child := row]));
    ForkedStep(w, b, child, runs, copies, row, now);
  }

  lemma ForkStep(w: World, parent: SessionId, point: EntryId,
                 project: Option<Option<ProjectId>>, workspace: Option<Option<WorkspaceId>>,
                 child: SessionId, parentCheckpoint: string, childCheckpoint: string, now: Time)
    requires Inv(w) && w.db.committedAt <= now
    ensures Good(w, Fork(w, parent, point, project, workspace, child, parentCheckpoint, childCheckpoint, now))
  {
    hide Inv, Good;
    IdleStep(w);
    var db := w.db;
    if ForkPointIsValid(db, parent, point, parentCheckpoint, childCheckpoint) && child !in db.sessions {
      var targetProject := if project.None? then db.sessions[parent].project else project.value;
      var targetWorkspace := if workspace.None? then db.sessions[parent].workspace else workspace.value;
      var rows := UpTo(Timeline(db.entries, parent), db.entries[point].order);
      var ids := CopiedRuns(db.runs, parent, rows);
      CopiedRunsExist(db.runs, parent, rows);
      if Copyable(rows, ids) {
        var copies := ChildEntries(rows, ids, |db.runs|, child, db.entries[point].order, childCheckpoint);
        var row := Session(targetProject, targetWorkspace, "Untitled Session", false, false,
                           1, |copies| + 1, |copies| + 1, 1, LastMilestone(copies), Some((parent, point)));
        ForkedCopyStep(w, parent, point, child, childCheckpoint, rows, ids, row, now);
      }
    }
  }
}
