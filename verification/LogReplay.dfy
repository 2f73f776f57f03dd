/**
 The synchronization log agrees with the state it describes: a reader whose cursor is accepted
 receives every change recorded since, and folding them over what it held gives the current facets.
 */
module LogReplay {
  import opened Options
  import opened AuthorityTables
  import opened AuthorityOperations
  import opened AuthorityInvariants
  import opened AuthorityRetentionSteps
  import opened AuthorityHistory

  // ---------------------------------------------------------------- reading a log

  /** Log rows ascend strictly by sequence and do not pass the Host's sequence. */
  ghost predicate Ascending(changes: seq<Logged>, last: nat) {
    && (forall i, j :: 0 <= i < j < |changes| ==> changes[i].sequence < changes[j].sequence)
    && (forall i :: 0 <= i < |changes| ==> changes[i].sequence <= last)
  }

  /** The rows up to a sequence, then rows beyond it: changesAfter returns exactly the latter. */
  lemma {:induction false} ChangesAfterSplits(seen: seq<Logged>, ahead: seq<Logged>, sequence: nat)
    requires forall i :: 0 <= i < |seen| ==> seen[i].sequence <= sequence
    requires forall i :: 0 <= i < |ahead| ==> ahead[i].sequence > sequence
    ensures ChangesAfter(seen + ahead, sequence) == ahead
  {
    if ahead != [] {
      var front := ahead[..|ahead| - 1];
      ChangesAfterSplits(seen, front, sequence);
      assert (seen + ahead)[..|seen + ahead| - 1] == seen + front;
    } else if seen != [] {
      ChangesAfterSplits(seen[..|seen| - 1], [], sequence);
      assert (seen + [])[..|seen| - 1] == seen[..|seen| - 1] + [];
    }
  }

  lemma {:induction false} ChangesAfterMembers(changes: seq<Logged>, sequence: nat, row: Logged)
    ensures row in ChangesAfter(changes, sequence) <==> row in changes && row.sequence > sequence
  {
    if changes != [] {
      var n := |changes| - 1;
      ChangesAfterMembers(changes[..n], sequence, row);
      assert changes == changes[..n] + [changes[n]];
    }
  }

  lemma {:induction false} KeepRecentMembers(changes: seq<Logged>, cutoff: Time, row: Logged)
    ensures row in KeepRecent(changes, cutoff) <==> row in changes && row.committedAt >= cutoff
  {
    if changes != [] {
      var n := |changes| - 1;
      KeepRecentMembers(changes[..n], cutoff, row);
      assert changes == changes[..n] + [changes[n]];
    }
  }

  lemma FoldAppends(facets: map<SessionId, Facet>, rows: seq<Logged>, more: seq<Logged>)
    requires |more| <= 1
    ensures Fold(facets, rows + more) == Fold(Fold(facets, rows), more)
  {
    if more == [] {
      assert rows + more == rows;
    } else {
      assert (rows + more)[..|rows|] == rows;
      assert more[..0] == [];
    }
  }

  // ---------------------------------------------------------------- the record of a history

  /** The changes one step recorded; rotating the epoch records none. */
  function Recorded(a: Db, b: Db): seq<Logged> {
    if b.epoch == a.epoch then ChangesAfter(b.changes, a.sequence) else []
  }

  /** Every change recorded between two moments of a history, whatever has been deleted since. */
  function RecordedBetween(states: seq<World>, i: nat, n: nat): seq<Logged>
    requires i <= n < |states|
    decreases n - i
  {
    if n == i then []
    else RecordedBetween(states, i, n - 1) + Recorded(states[n - 1].db, states[n].db)
  }

  lemma EpochsAscend(states: seq<World>, i: nat, n: nat)
    requires Traced(states) && i <= n < |states|
    ensures states[i].db.epoch <= states[n].db.epoch
    decreases n - i
  {
    if i < n {
      EpochsAscend(states, i, n - 1);
      TracedKeeps(states, n);
      hide Traced, Inv;
    }
  }

  /** What the log of a later state of the same epoch consists of. */
  ghost predicate LogExtends(a: Db, b: Db, rows: seq<Logged>, dropped: nat) {
    && dropped <= |a.changes + rows|
    && b.changes == (a.changes + rows)[dropped..]
    && b.sequence >= a.sequence
    && (forall i :: 0 <= i < |rows| ==> a.sequence < rows[i].sequence <= b.sequence)
    && (forall i, j :: 0 <= i < j < |rows| ==> rows[i].sequence < rows[j].sequence)
    && Facets(b) == Fold(Facets(a), rows)
  }

  lemma OneStepRecords(a: Db, b: Db) returns (dropped: nat)
    requires LogOk(a) && LogStep(a, b) && b.epoch == a.epoch
    ensures LogAdvance(a, b, dropped, Recorded(a, b))
  {
    var k: nat, rows :| LogAdvance(a, b, k, rows);
    ChangesAfterSplits(a.changes[k..], rows, a.sequence);
    dropped := k;
  }

  lemma LogExtendsFurther(a: Db, b: Db, c: Db, rows: seq<Logged>, dropped: nat, more: seq<Logged>, k: nat)
    requires LogExtends(a, b, rows, dropped) && LogAdvance(b, c, k, more)
    ensures LogExtends(a, c, rows + more, dropped + k)
  {
    var all := a.changes + rows;
    assert a.changes + (rows + more) == all + more;
    assert (all + more)[dropped + k..] == all[dropped..][k..] + more;
    FoldAppends(Facets(a), rows, more);
  }

  lemma LogKeeps(states: seq<World>, n: nat)
    requires Traced(states) && 0 < n < |states|
    ensures LogOk(states[n - 1].db) && LogStep(states[n - 1].db, states[n].db)
  {
    TracedKeeps(states, n - 1);
    TracedKeeps(states, n);
    hide Traced, EntriesOk, RunsOk, SettlementsOk, Reopens, BlobsOk, LogOk;
    hide LogStep, ReadStep, TimelineStep, RunStep, EntryStep, ReceiptStep;
  }

  lemma LogExtendsItself(a: Db)
    requires LogOk(a)
    ensures LogExtends(a, a, [], 0)
  {
    assert (a.changes + [])[0..] == a.changes;
  }

  lemma {:induction false} LogAccumulates(states: seq<World>, i: nat, n: nat) returns (dropped: nat)
    requires Traced(states) && i <= n < |states| && states[n].db.epoch == states[i].db.epoch
    ensures LogExtends(states[i].db, states[n].db, RecordedBetween(states, i, n), dropped)
    decreases n - i
  {
    hide Traced, LogOk, LogStep, LogExtends, LogAdvance, Recorded;
    if n == i {
      dropped := 0;
      TraceLogOk(states, i);
      LogExtendsItself(states[i].db);
    } else {
      EpochsAscend(states, i, n - 1);
      EpochsAscend(states, n - 1, n);
      LogKeeps(states, n);
      var before := LogAccumulates(states, i, n - 1);
      var k := OneStepRecords(states[n - 1].db, states[n].db);
      LogExtendsFurther(states[i].db, states[n - 1].db, states[n].db, RecordedBetween(states, i, n - 1), before,
                        Recorded(states[n - 1].db, states[n].db), k);
      dropped := before + k;
    }
  }

  lemma TraceLogOk(states: seq<World>, k: nat)
    requires Traced(states) && k < |states|
    ensures LogOk(states[k].db)
  {
    TracedKeeps(states, k);
    hide Traced, Step, LogOk, EntriesOk, RunsOk, SettlementsOk, Reopens, BlobsOk;
  }

  /** Once a row beyond a cursor has been deleted, the cursor is refused. */
  lemma LostRowRefusesCursor(a: Db, b: Db, rows: seq<Logged>, dropped: nat)
    requires LogExtends(a, b, rows, dropped) && b.epoch == a.epoch && dropped > |a.changes|
    ensures CursorBasis(b, Here(a)) == HistoryUnavailable
  {
    var lost := rows[dropped - |a.changes| - 1];
    assert a.sequence < lost.sequence <= b.sequence;
    if b.changes != [] {
      assert b.changes[0] == rows[dropped - |a.changes|];
      assert lost.sequence < b.changes[0].sequence;
    }
  }

  /** An accepted cursor lost none of the rows recorded beyond it. */
  lemma AcceptedCursorMissesNothing(a: Db, b: Db, rows: seq<Logged>, dropped: nat)
    requires LogOk(a) && LogExtends(a, b, rows, dropped) && b.epoch == a.epoch
    requires CursorBasis(b, Here(a)).Compatible?
    ensures ChangesAfter(b.changes, a.sequence) == rows
  {
    if dropped > |a.changes| {
      LostRowRefusesCursor(a, b, rows, dropped);
    }
    assert b.changes == a.changes[dropped..] + rows;
    ChangesAfterSplits(a.changes[dropped..], rows, a.sequence);
  }

  lemma ReplayAlongTrace(states: seq<World>, i: nat, n: nat)
    requires Traced(states) && i <= n < |states|
    requires CursorBasis(states[n].db, Here(states[i].db)).Compatible?
    ensures ChangesAfter(states[n].db.changes, states[i].db.sequence) == RecordedBetween(states, i, n)
    ensures Fold(Facets(states[i].db), RecordedBetween(states, i, n)) == Facets(states[n].db)
  {
    TracedKeeps(states, i);
    var dropped := LogAccumulates(states, i, n);
    hide Traced, Step, EntriesOk, RunsOk, SettlementsOk, Reopens, BlobsOk, Fold, RecordedBetween;
    AcceptedCursorMissesNothing(states[i].db, states[n].db, RecordedBetween(states, i, n), dropped);
  }

  /**
   Log replay. For any two states of a history, if the cursor issued at the first is accepted at the
   second then the Host answers exactly the changes recorded in between, and folding them over the
   facets the cursor stood for gives the current facets.
   */
  lemma ReplayIsExact(states: seq<World>, events: seq<Event>, i: nat, n: nat)
    requires History(states, events) && i <= n <= |events|
    requires CursorBasis(states[n].db, Here(states[i].db)).Compatible?
    ensures ChangesAfter(states[n].db.changes, states[i].db.sequence) == RecordedBetween(states, i, n)
    ensures Fold(Facets(states[i].db), ChangesAfter(states[n].db.changes, states[i].db.sequence))
         == Facets(states[n].db)
  {
    HistoryIsTraced(states, events);
    ReplayAlongTrace(states, i, n);
  }

  // ---------------------------------------------------------------- which cursors are accepted

  /** A retained change reaches down to the one right after a position. */
  ghost predicate Reaches(changes: seq<Logged>, sequence: nat) {
    exists k :: 0 <= k < |changes| && changes[k].sequence <= sequence + 1
  }

  /**
   A cursor of this Host is accepted exactly if it is of the current epoch and not beyond the log, and is either
   at the end of the log or no change after it has been dropped: one of the retained changes is at most the next.
   A cursor of another epoch is told so, and any other refusal is for lack of history.
   */
  lemma AcceptedExactlyIfHistoryReaches(db: Db, cursor: Position)
    requires LogOk(db)
    ensures CursorBasis(db, cursor).Compatible? <==>
              cursor.epoch == db.epoch && cursor.sequence <= db.sequence
              && (cursor.sequence == db.sequence || Reaches(db.changes, cursor.sequence))
    ensures CursorBasis(db, cursor).Compatible? ==> CursorBasis(db, cursor) == Compatible(cursor.sequence)
    ensures CursorBasis(db, cursor).EpochMismatch? <==> cursor.epoch != db.epoch
  {
    if db.changes != [] && Reaches(db.changes, cursor.sequence) {
      var k :| 0 <= k < |db.changes| && db.changes[k].sequence <= cursor.sequence + 1;
      assert db.changes[0].sequence <= db.changes[k].sequence;
    }
    if db.changes != [] && db.changes[0].sequence <= cursor.sequence + 1 {
      assert Reaches(db.changes, cursor.sequence);
    }
  }

  /**
   Over histories, the cursor of a state is accepted at a later one exactly if the epoch is still the same and
   the sequence has not moved or a retained change is at most the next after the cursor.
   */
  lemma CursorsStayAccepted(states: seq<World>, events: seq<Event>, i: nat, n: nat)
    requires History(states, events) && i <= n <= |events|
    ensures CursorBasis(states[n].db, Here(states[i].db)).Compatible? <==>
              states[n].db.epoch == states[i].db.epoch
              && (states[n].db.sequence == states[i].db.sequence || Reaches(states[n].db.changes, states[i].db.sequence))
    ensures CursorBasis(states[n].db, Here(states[i].db)).EpochMismatch? <==> states[n].db.epoch != states[i].db.epoch
  {
    HistoryIsTraced(states, events);
    TraceLogOk(states, n);
    AcceptedExactlyIfHistoryReaches(states[n].db, Here(states[i].db));
    hide History, LogOk, Reaches, CursorBasis;
    if states[n].db.epoch == states[i].db.epoch {
      var dropped := LogAccumulates(states, i, n);
    }
  }

  /** The first change of all reaches a Client whose cursor is the one of a new Host. */
  lemma FirstChangeIsAnswered()
    ensures var db := Apply(Genesis(0), CreateProjectOp(0, 0), 1).db;
            && CursorBasis(db, Position(0, 1)) == Compatible(1)
            && ChangesAfter(db.changes, 1) == [Logged(2, 1, ProjectCreated(0, 0))]
  {
    var db := CreateProject(Genesis(0), 0, 0, 1).db;
    assert db.changes == [Logged(2, 1, ProjectCreated(0, 0))];
    assert db.changes[..0] == [];
  }

  // ---------------------------------------------------------------- a clock that goes back

  /** Every cursor accepted after deleting rows is answered as it would have been before. */
  ghost predicate CompactionIsFaithful(db: Db, cutoff: Time) {
    var after := db.(changes := KeepRecent(db.changes, cutoff));
    forall c: nat :: CursorBasis(after, Position(db.epoch, c)).Compatible?
      ==> ChangesAfter(after.changes, c) == ChangesAfter(db.changes, c)
  }

  /** The rows that expire form a prefix of the log. */
  ghost predicate ExpiredRowsLead(changes: seq<Logged>, cutoff: Time) {
    forall i, j :: 0 <= i < j < |changes| && changes[j].committedAt < cutoff ==> changes[i].committedAt < cutoff
  }

  lemma {:induction false} LeadingRowsAreDropped(changes: seq<Logged>, cutoff: Time) returns (dropped: nat)
    requires ExpiredRowsLead(changes, cutoff)
    ensures dropped <= |changes| && KeepRecent(changes, cutoff) == changes[dropped..]
    ensures forall i :: dropped <= i < |changes| ==> changes[i].committedAt >= cutoff
  {
    if changes == [] {
      dropped := 0;
    } else {
      var n := |changes| - 1;
      assert ExpiredRowsLead(changes[..n], cutoff);
      dropped := LeadingRowsAreDropped(changes[..n], cutoff);
      if changes[n].committedAt < cutoff {
        assert forall i :: 0 <= i < n ==> changes[i].committedAt < cutoff;
        assert dropped == n;
        dropped := |changes|;
      } else {
        assert changes[dropped..] == changes[..n][dropped..] + [changes[n]];
      }
    }
  }

  lemma LeadingRowsAreUnneeded(db: Db, cutoff: Time, c: nat)
    requires Ascending(db.changes, db.sequence) && ExpiredRowsLead(db.changes, cutoff)
    requires CursorBasis(db.(changes := KeepRecent(db.changes, cutoff)), Position(db.epoch, c)).Compatible?
    ensures ChangesAfter(KeepRecent(db.changes, cutoff), c) == ChangesAfter(db.changes, c)
  {
    var dropped := LeadingRowsAreDropped(db.changes, cutoff);
    var lost, kept := db.changes[..dropped], db.changes[dropped..];
    assert db.changes == lost + kept;
    assert forall i :: 0 <= i < |lost| ==> lost[i].sequence <= c by {
      if c < db.sequence {
        assert kept != [] && c >= kept[0].sequence - 1;
      }
    }
    LostPrefixIsBehind(lost, kept, c);
  }

  /** Rows at or before a cursor can be dropped from the front without changing what follows it. */
  lemma {:induction false} LostPrefixIsBehind(lost: seq<Logged>, kept: seq<Logged>, c: nat)
    requires forall i :: 0 <= i < |lost| ==> lost[i].sequence <= c
    ensures ChangesAfter(lost + kept, c) == ChangesAfter(kept, c)
  {
    if kept == [] {
      assert lost + kept == lost;
      ChangesAfterSplits(lost, [], c);
      assert lost + [] == lost;
    } else {
      var n := |kept| - 1;
      LostPrefixIsBehind(lost, kept[..n], c);
      assert (lost + kept)[..|lost + kept| - 1] == lost + kept[..n];
    }
  }

  /** A retained row before an expired one lets a cursor between them be accepted with a hole. */
  lemma HoleIsAccepted(db: Db, cutoff: Time, i: nat, j: nat)
    requires Ascending(db.changes, db.sequence) && i < j < |db.changes|
    requires db.changes[j].committedAt < cutoff <= db.changes[i].committedAt
    ensures !CompactionIsFaithful(db, cutoff)
  {
    var after := db.(changes := KeepRecent(db.changes, cutoff));
    var c := db.changes[j].sequence - 1;
    KeepRecentMembers(db.changes, cutoff, db.changes[i]);
    KeepRecentMembers(db.changes, cutoff, db.changes[j]);
    KeepRecentMembers(db.changes, cutoff, after.changes[0]);
    FirstRetainedIsEarliest(db.changes, cutoff, db.sequence, db.changes[i]);
    assert CursorBasis(after, Position(db.epoch, c)).Compatible?;
    ChangesAfterMembers(db.changes, c, db.changes[j]);
    ChangesAfterMembers(after.changes, c, db.changes[j]);
  }

  lemma {:induction false} FirstRetainedIsEarliest(changes: seq<Logged>, cutoff: Time, last: nat, row: Logged)
    requires Ascending(changes, last) && row in KeepRecent(changes, cutoff)
    ensures KeepRecent(changes, cutoff)[0].sequence <= row.sequence
  {
    var n := |changes| - 1;
    if row != changes[n] {
      FirstRetainedIsEarliest(changes[..n], cutoff, last, row);
    } else {
      var front := KeepRecent(changes[..n], cutoff);
      if front != [] {
        KeepRecentMembers(changes[..n], cutoff, front[0]);
      }
    }
  }

  /**
   Deleting by commit time answers every accepted cursor faithfully exactly when the expired rows
   come first, which a clock that never goes back ensures.
   */
  lemma CompactionIsFaithfulExactlyWhenExpiredRowsLead(db: Db, cutoff: Time)
    requires Ascending(db.changes, db.sequence)
    ensures CompactionIsFaithful(db, cutoff) <==> ExpiredRowsLead(db.changes, cutoff)
  {
    if ExpiredRowsLead(db.changes, cutoff) {
      forall c: nat | CursorBasis(db.(changes := KeepRecent(db.changes, cutoff)), Position(db.epoch, c)).Compatible?
        ensures ChangesAfter(KeepRecent(db.changes, cutoff), c) == ChangesAfter(db.changes, c)
      {
        LeadingRowsAreUnneeded(db, cutoff, c);
      }
    } else {
      var i, j :| 0 <= i < j < |db.changes| && db.changes[j].committedAt < cutoff && !(db.changes[i].committedAt < cutoff);
      HoleIsAccepted(db, cutoff, i, j);
    }
  }

  /** A Session created at 100, then one created after the clock had stepped back to 50. */
  function SteppedBack(): World {
    var first := Apply(Genesis(0), CreateSessionOp(0, None, None, None), 100);
    Apply(first, CreateSessionOp(1, None, None, None), 50)
  }

  lemma SteppedBackLog()
    ensures var db := SteppedBack().db;
            && db.epoch == 0 && db.sequence == 3 && |db.changes| == 2
            && db.changes[0].sequence == 2 && db.changes[0].committedAt == 100
            && db.changes[1].sequence == 3 && db.changes[1].committedAt == 50
  {
    var first := CreateSession(Genesis(0), 0, None, None, None, 100);
    assert 1 !in first.db.sessions;
  }

  /**
   A clock stepped back between two commits makes seven-day retention lose a change silently: the Host
   accepts the cursor between them and answers it with nothing.
   */
  lemma ClockStepBackLosesAChange()
    ensures var w, now, cursor := SteppedBack(), RETENTION + 60, Position(0, 2);
            var after := Apply(w, MaintainOp(Moves({}, {}, {})), now).db;
            && Ascending(w.db.changes, w.db.sequence)
            && CursorBasis(after, cursor).Compatible?
            && |ChangesAfter(w.db.changes, 2)| == 1 && ChangesAfter(after.changes, 2) == []
  {
    SteppedBackLog();
    var changes := SteppedBack().db.changes;
    hide SteppedBack;
    assert changes[..1][..0] == [] && changes[..1] == [changes[0]];
    assert KeepRecent(changes[..1], 60) == changes[..1];
    assert KeepRecent(changes, 60) == changes[..1];
    assert ChangesAfter(changes[..1], 2) == [];
    assert ChangesAfter(changes, 2) == [changes[1]];
  }
}
