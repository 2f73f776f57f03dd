/**
 Retention, epochs and artifact files: log compaction drops a prefix, and garbage collection
 never moves a blob that a timeline entry names.
 */
module AuthorityRetentionSteps {
  import opened Options
  import opened AuthorityTables
  import opened AuthorityOperations
  import opened AuthorityInvariants
  import opened AuthoritySteps

  /** With ascending commit times the rows older than a cutoff are a prefix. */
  lemma {:induction false} CompactionDropsPrefix(changes: seq<Logged>, cutoff: Time) returns (dropped: nat)
    requires forall i, j :: 0 <= i < j < |changes| ==> changes[i].committedAt <= changes[j].committedAt
    ensures dropped <= |changes| && KeepRecent(changes, cutoff) == changes[dropped..]
    ensures forall i :: dropped <= i < |changes| ==> changes[i].committedAt >= cutoff
    ensures forall i :: 0 <= i < dropped ==> changes[i].committedAt < cutoff
  {
    if changes == [] {
      dropped := 0;
    } else {
      var front := changes[..|changes| - 1];
      dropped := CompactionDropsPrefix(front, cutoff);
      if changes[|changes| - 1].committedAt < cutoff {
        assert dropped == |front|;
        dropped := |changes|;
      } else {
        assert changes[dropped..] == front[dropped..] + [changes[|changes| - 1]];
      }
    }
  }

  lemma CompactedLog(a: Db, b: Db, cutoff: Time)
    requires LogOk(a) && b == a.(changes := KeepRecent(a.changes, cutoff), orphans := b.orphans)
    ensures LogOk(b) && LogStep(a, b)
  {
    var dropped := CompactionDropsPrefix(a.changes, cutoff);
    assert Facets(b) == Facets(a);
    assert LogAdvance(a, b, dropped, []);
  }

  /** Neither a planned move nor any part of it takes a referenced blob out of the live directory. */
  lemma MovesKeepReferences(w: World, now: Time, done: Moves)
    requires BlobsOk(w) && WithinMoves(done, PlannedMoves(w, now))
    ensures BlobsOk(World(MaintenanceTransaction(w, now), ApplyMoves(w.disk, done)))
  {
    forall i | 0 <= i < |w.db.entries| && w.db.entries[i].blob.Some?
      ensures w.db.entries[i].blob.value in ApplyMoves(w.disk, done).live
    {
      assert w.db.entries[i].blob.value in EntryBlobs(w.db.entries);
    }
  }

  lemma MaintainStep(w: World, now: Time, done: Moves)
    requires Inv(w)
    ensures Good(w, Maintain(w, now, done))
  {
    if !WithinMoves(done, PlannedMoves(w, now)) {
      IdleStep(w);
    } else {
      var b := Maintain(w, now, done);
      MovesKeepReferences(w, now, done);
      CompactedLog(w.db, b.db, now - RETENTION);
      hide LogStep, LogOk, BlobsOk, WithinMoves, PlannedMoves, ApplyMoves, KeepRecent;
      MaintainedTables(w.db, b.db);
    }
  }

  /** Whatever leaves the domain tables alone keeps what is said of them. */
  lemma MaintainedTables(a: Db, b: Db)
    requires Reopens(a) && RunsOk(a) && EntriesOk(a) && SettlementsOk(a)
    requires b.sessions == a.sessions && b.runs == a.runs && b.entries == a.entries
    ensures Reopens(b) && RunsOk(b) && EntriesOk(b) && SettlementsOk(b)
    ensures ReadStep(a, b) && TimelineStep(a, b) && RunStep(a, b) && EntryStep(a, b)
  {
    assert RunStep(a, b) && EntryStep(a, b);
    BackingStays(a, b);
    forall s | s in a.sessions
      ensures TimelineMove(ViewOf(a, s), ViewOf(b, s))
    {
      assert ViewOf(a, s) == ViewOf(b, s);
    }
    SettlementCountsStay(a, b);
  }

  lemma SettlementCountsStay(a: Db, b: Db)
    requires SettlementsOk(a) && b.sessions == a.sessions && b.runs == a.runs && b.entries == a.entries
    ensures SettlementsOk(b)
  {}

  lemma RotateEpochStep(w: World, now: Time)
    requires Inv(w) && w.db.committedAt <= now
    ensures Good(w, RotateEpoch(w, now))
  {
    var b := RotateEpoch(w, now);
    assert Facets(b.db) == Facets(w.db);
    assert Rotated(w.db, b.db);
    hide Dense;
    MaintainedTables(w.db, b.db);
  }

  lemma RetainStep(w: World, blob: Blob)
    requires Inv(w)
    ensures Good(w, Retain(w, blob))
  {
    QuietStep(w, Retain(w, blob));
  }

  lemma ResetResidencyStep(w: World)
    requires Inv(w)
    ensures Good(w, ResetResidency(w))
  {
    ResidencyStep(w, ResetResidency(w).db.sessions);
  }

  /** Evidence files are outside everything the database invariants speak of. */
  lemma EvidenceStep(w: World, evidence: map<RunId, Evidence>)
    requires Inv(w)
    ensures Good(w, w.(disk := w.disk.(evidence := evidence)))
  {
    QuietStep(w, w.(disk := w.disk.(evidence := evidence)));
  }
}
