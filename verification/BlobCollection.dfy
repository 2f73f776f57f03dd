/**
 Garbage collection of blobs: two proofs before a deletion, and what a crash between the maintenance
 transaction and its physical moves can and cannot lose.
 */
module BlobCollection {
  import opened Options
  import opened AuthorityTables
  import opened AuthorityOperations
  import opened AuthorityInvariants
  import opened AuthorityHistory
  import opened AuthorityOutcomes

  /** In every reachable state, crashed or not, the live directory has every blob an entry names. */
  lemma ReferencedBlobsAreLive(states: seq<World>, events: seq<Event>, k: nat)
    requires History(states, events) && k <= |events|
    ensures EntryBlobs(states[k].db.entries) <= states[k].disk.live
  {
    HistoryKeeps(states, events, k);
  }

  // ---------------------------------------------------------------- two proofs

  predicate OnDisk(disk: Disk, b: Blob) { b in disk.live || b in disk.quarantined }

  /** A maintenance pass that found a blob live and unreferenced. */
  ghost predicate ProvedOrphan(states: seq<World>, events: seq<Event>, m: nat, b: Blob) {
    m < |events| && m < |states| && events[m].op.MaintainOp?
    && b in states[m].disk.live && b !in Referenced(states[m].db)
  }

  /** Blobs may be published, and none is moved or forgotten. */
  ghost predicate KeepsDisk(a: World, b: World) {
    a.disk.live <= b.disk.live && b.disk.quarantined == a.disk.quarantined && b.db.orphans == a.db.orphans
  }

  lemma SubmitKeepsDisk(w: World, env: Envelope, now: Time)
    requires env.SubmitEnvelope?
    ensures KeepsDisk(w, Submit(w, env, now).0)
  {
    hide NewEntry, NextRunOrder, SessionOccupied;
  }

  lemma SteerKeepsDisk(w: World, env: Envelope, active: Option<nat>, now: Time)
    requires env.SteerEnvelope?
    ensures KeepsDisk(w, Steer(w, env, active, now).0)
  {
    hide NewEntry;
  }

  lemma StopKeepsDisk(w: World, env: Envelope, active: Option<nat>, now: Time)
    requires env.StopEnvelope?
    ensures KeepsDisk(w, Stop(w, env, active, now).0)
  {
    hide NewEntry, CancelWaitingRows, WithdrawRunInteractions, Repeat;
  }

  lemma MetadataKeepsDisk(w: World, env: Envelope, fault: bool, now: Time)
    requires env.RenameEnvelope? || env.AvailabilityEnvelope? || env.MarkReadEnvelope?
    ensures KeepsDisk(w, Execute(w, env, None, fault, now).0)
  {
    hide Submit, Steer, Stop, SessionHasActiveWork, SummaryOf, ReadStateOf, Repeat;
  }

  lemma CommandsKeepDisk(w: World, env: Envelope, active: Option<nat>, fault: bool, now: Time)
    ensures KeepsDisk(w, Execute(w, env, active, fault, now).0)
  {
    hide KeepsDisk, Submit, Steer, Stop, Rename, ChangeAvailability, MarkRead;
    match env
    case SubmitEnvelope(_, _, _, _, _) => SubmitKeepsDisk(w, env, now);
    case SteerEnvelope(_, _, _, _, _, _, _) => SteerKeepsDisk(w, env, active, now);
    case StopEnvelope(_, _, _, _, _) => StopKeepsDisk(w, env, active, now);
    case _ => MetadataKeepsDisk(w, env, fault, now);
  }

  lemma RunsKeepDisk(w: World, op: Op, now: Time)
    requires OnRuns(op)
    ensures KeepsDisk(w, Apply(w, op, now))
  {
    hide NewEntry, ReadStateOf, FindOpenAssistant, FindOpenTool, FirstQueued, SessionIsExecuting, WaitsBehind;
    hide HoldQueuedRows, ReleaseHeldRows, Execute, Fork, Maintain, ResetResidency;
  }

  lemma OthersKeepDisk(w: World, op: Op, now: Time)
    requires !op.MaintainOp?
    ensures KeepsDisk(w, Apply(w, op, now))
  {
    if op.CommandOp? {
      CommandsKeepDisk(w, op.envelope, op.active, op.fault, now);
      hide Execute;
    } else if OnRuns(op) {
      RunsKeepDisk(w, op, now);
      hide Apply;
    } else {
      hide Execute, Settle, ApplyEvent, FinalizeAssistant, OpenInteraction;
      hide UpTo, Timeline, ChildRuns, ChildEntries, LastMilestone, SummaryOf;
    }
  }

  /** No operation but a deleting maintenance pass takes bytes off the disk. */
  lemma OnlyMaintenanceDeletes(w: World, op: Op, now: Time, b: Blob)
    requires OnDisk(w.disk, b) && !OnDisk(Apply(w, op, now).disk, b)
    ensures op.MaintainOp? && b in op.done.deleted && WithinMoves(op.done, PlannedMoves(w, now))
  {
    if !op.MaintainOp? {
      OthersKeepDisk(w, op, now);
      hide Apply;
    }
  }

  /** An orphan row is new, with the pass's time, or was there. */
  lemma OrphansComeFromPasses(w: World, op: Op, now: Time, b: Blob)
    requires b in Apply(w, op, now).db.orphans
    ensures (b in w.db.orphans && Apply(w, op, now).db.orphans[b] == w.db.orphans[b])
            || (op.MaintainOp? && b in w.disk.live && b !in Referenced(w.db) && Apply(w, op, now).db.orphans[b] == now)
  {
    if !op.MaintainOp? {
      OthersKeepDisk(w, op, now);
      hide Apply;
    }
  }

  lemma {:induction false} OrphanRowsWereProved(states: seq<World>, events: seq<Event>, k: nat, b: Blob) returns (m: nat)
    requires History(states, events) && k <= |events| && states[0].db.orphans == map[] && b in states[k].db.orphans
    ensures m < k && ProvedOrphan(states, events, m, b) && events[m].now == states[k].db.orphans[b]
  {
    assert k > 0;
    var event := events[k - 1];
    assert states[k] == Apply(states[k - 1], event.op, event.now);
    OrphansComeFromPasses(states[k - 1], event.op, event.now, b);
    hide Apply;
    if event.op.MaintainOp? && b in states[k - 1].disk.live && b !in Referenced(states[k - 1].db)
       && states[k].db.orphans[b] == event.now {
      m := k - 1;
    } else {
      m := OrphanRowsWereProved(states, events, k - 1, b);
    }
  }

  /**
   No operation takes a needed blob out of the live directory, and a whole pass brings back every needed blob
   that is quarantined and listed.
   */
  lemma NeededBlobsStay(w: World, op: Op, now: Time, b: Blob)
    requires Needed(w.db, b) && b in w.disk.live
    ensures b in Apply(w, op, now).disk.live
  {
    ReferencedIsNeeded(w.db, b);
    if !op.MaintainOp? {
      OthersKeepDisk(w, op, now);
      hide Apply;
    }
    hide Needed, Referenced;
  }

  lemma WholePassRestores(w: World, now: Time, b: Blob)
    requires Needed(w.db, b) && b in w.disk.quarantined && b in w.db.orphans
    ensures var after := Maintain(w, now, PlannedMoves(w, now));
            b in after.disk.live && b !in after.disk.quarantined && b !in after.db.orphans
  {
    ReferencedIsNeeded(w.db, b);
    hide Needed, Referenced;
  }

  lemma ProtectionHolds(states: seq<World>, events: seq<Event>, k: nat, b: Blob)
    requires History(states, events) && k < |events| && b in states[k].db.retained
    ensures |states| == |events| + 1 && b in states[k + 1].db.retained
    ensures b in states[k].disk.live ==> b in states[k + 1].disk.live
  {
    HistoryKeeps(states, events, k + 1);
    EventHolds(states, events, k);
    hide History, Apply, Inv, LogStep, ReadStep, TimelineStep, RunStep, EntryStep, ReceiptStep;
    if b in states[k].disk.live {
      NeededBlobsStay(states[k], events[k].op, events[k].now, b);
    }
  }

  /** Over histories, a protected live blob is live ever after, whatever passes, crashes and commands follow. */
  lemma {:induction false} ProtectedBlobsStayLive(states: seq<World>, events: seq<Event>, i: nat, n: nat, b: Blob)
    requires History(states, events) && i <= n <= |events| && b in states[i].db.retained && b in states[i].disk.live
    ensures b in states[n].disk.live && b in states[n].db.retained
    decreases n - i
  {
    hide Apply, Inv;
    if i < n {
      ProtectedBlobsStayLive(states, events, i, n - 1, b);
      ProtectionHolds(states, events, n - 1, b);
    }
  }

  /**
   Two proofs. A blob's bytes leave the disk only in a pass that finds it unreferenced, after an
   earlier pass at a strictly earlier time had found it unreferenced too.
   */
  lemma DeletionTakesTwoProofs(states: seq<World>, events: seq<Event>, n: nat, b: Blob) returns (m: nat)
    requires History(states, events) && n < |events| && states[0].db.orphans == map[]
    requires OnDisk(states[n].disk, b) && !OnDisk(states[n + 1].disk, b)
    ensures m < n && events[m].op.MaintainOp? && events[n].op.MaintainOp? && events[m].now < events[n].now
    ensures b in states[m].disk.live
    ensures b !in states[m].db.retained && forall i :: 0 <= i < |states[m].db.entries| ==> states[m].db.entries[i].blob != Some(b)
    ensures b !in states[n].db.retained && forall i :: 0 <= i < |states[n].db.entries| ==> states[n].db.entries[i].blob != Some(b)
  {
    assert states[n + 1] == Apply(states[n], events[n].op, events[n].now);
    OnlyMaintenanceDeletes(states[n], events[n].op, events[n].now, b);
    m := OrphanRowsWereProved(states, events, n, b);
    ReferencedIsNeeded(states[m].db, b);
    ReferencedIsNeeded(states[n].db, b);
    hide History, Apply, Referenced;
  }

  // ---------------------------------------------------------------- collection happens

  /** Two complete passes at increasing times remove a blob that stays unreferenced. */
  lemma TwoPassesCollect(w: World, b: Blob, first: Time, second: Time)
    requires b in w.disk.live && b !in w.disk.quarantined && b !in Referenced(w.db) && b !in w.db.orphans
    requires first < second
    ensures var once := Maintain(w, first, PlannedMoves(w, first));
            var twice := Maintain(once, second, PlannedMoves(once, second));
            && b !in once.disk.live && b in once.disk.quarantined
            && !OnDisk(twice.disk, b) && b !in twice.db.orphans
  {
    var once := Maintain(w, first, PlannedMoves(w, first));
    assert b in PlannedMoves(w, first).quarantined;
    assert once.db.orphans[b] == first;
    assert b in PlannedMoves(once, second).deleted;
  }

  // ---------------------------------------------------------------- what a stopped pass leaves behind

  /** In quarantine, out of the live directory, and no longer on the list that passes work from. */
  predicate Stranded(w: World, b: Blob) {
    b in w.disk.quarantined && b !in w.disk.live && b !in w.db.orphans
  }

  /** The restores and deletes a pass decided and did not come to. */
  function Undone(w: World, now: Time, done: Moves): set<Blob> {
    var planned := PlannedMoves(w, now);
    (planned.restored - done.restored) + (planned.deleted - done.deleted)
  }

  /** A pass that stops before it restores or deletes an object that is only in quarantine. */
  predicate LeavesBehind(w: World, op: Op, now: Time, b: Blob) {
    && op.MaintainOp? && WithinMoves(op.done, PlannedMoves(w, now))
    && b in Undone(w, now, op.done) && b in w.disk.quarantined && b !in w.disk.live
  }

  /** One operation strands an object exactly if it is a pass that leaves it behind. */
  lemma StrandedExactlyByAStoppedPass(w: World, op: Op, now: Time, b: Blob)
    requires !Stranded(w, b)
    ensures Stranded(Apply(w, op, now), b) <==> LeavesBehind(w, op, now, b)
  {
    if op.MaintainOp? {
      hide Referenced;
    } else {
      OthersKeepDisk(w, op, now);
      hide Apply;
    }
  }

  /** A stranded object stays so exactly until its bytes are published again. */
  lemma StrandedUntilPublished(w: World, op: Op, now: Time, b: Blob)
    requires Stranded(w, b)
    ensures Stranded(Apply(w, op, now), b) <==> b !in Apply(w, op, now).disk.live
    ensures op.MaintainOp? ==> Stranded(Apply(w, op, now), b)
  {
    if !op.MaintainOp? {
      OthersKeepDisk(w, op, now);
      hide Apply;
    }
  }

  /** The pass that is event j left the object behind, and its bytes have not been published since. */
  ghost predicate LeftBehindAt(states: seq<World>, events: seq<Event>, j: nat, k: nat, b: Blob) {
    && j < k <= |events| && k < |states| && LeavesBehind(states[j], events[j].op, events[j].now, b)
    && forall m :: j < m <= k ==> b !in states[m].disk.live
  }

  ghost predicate LeftBehind(states: seq<World>, events: seq<Event>, k: nat, b: Blob) {
    exists j: nat :: LeftBehindAt(states, events, j, k, b)
  }

  /** The last event keeps it stranded, or leaves it behind. */
  lemma LeftBehindStep(states: seq<World>, events: seq<Event>, k: nat, b: Blob)
    requires 0 < k <= |events| && k < |states|
    requires Stranded(states[k - 1], b) <==> LeftBehind(states, events, k - 1, b)
    requires if Stranded(states[k - 1], b) then Stranded(states[k], b) <==> b !in states[k].disk.live
             else Stranded(states[k], b) <==> LeavesBehind(states[k - 1], events[k - 1].op, events[k - 1].now, b)
    ensures Stranded(states[k], b) <==> LeftBehind(states, events, k, b)
  {
    hide LeavesBehind;
    if Stranded(states[k], b) {
      var j: nat := k - 1;
      if Stranded(states[k - 1], b) {
        j :| LeftBehindAt(states, events, j, k - 1, b);
      }
      assert LeftBehindAt(states, events, j, k, b);
    }
    hide Stranded;
    forall j: nat | LeftBehindAt(states, events, j, k, b)
      ensures Stranded(states[k], b)
    {
      if j < k - 1 {
        assert LeftBehindAt(states, events, j, k - 1, b);
      }
      assert Stranded(states[k - 1], b) || j == k - 1;
    }
  }

  /**
   In every history that starts with nothing stranded, an object is stranded exactly if some pass decided
   to restore or delete it and stopped before it did, and its bytes have not been published since.
   */
  lemma {:induction false} StrandedExactlyIfLeftBehind(states: seq<World>, events: seq<Event>, k: nat, b: Blob)
    requires History(states, events) && k <= |events| && !Stranded(states[0], b)
    ensures Stranded(states[k], b) <==> LeftBehind(states, events, k, b)
  {
    if k > 0 {
      var a, event := states[k - 1], events[k - 1];
      assert states[k] == Apply(a, event.op, event.now);
      StrandedExactlyIfLeftBehind(states, events, k - 1, b);
      assert |states| == |events| + 1;
      hide History, Apply, LeavesBehind, Stranded, LeftBehind;
      if Stranded(a, b) {
        StrandedUntilPublished(a, event.op, event.now, b);
      } else {
        StrandedExactlyByAStoppedPass(a, event.op, event.now, b);
      }
      LeftBehindStep(states, events, k, b);
    }
  }

  /**
   As long as every pass carries out the restores and deletes it decides, every quarantined object is live
   or listed, so a later pass can still restore it.
   */
  lemma FinishedPassesStrandNothing(states: seq<World>, events: seq<Event>, k: nat, b: Blob)
    requires History(states, events) && k <= |events| && !Stranded(states[0], b)
    requires forall j :: 0 <= j < k && events[j].op.MaintainOp?
               ==> b !in Undone(states[j], events[j].now, events[j].op.done)
    ensures b in states[k].disk.quarantined ==> b in states[k].disk.live || b in states[k].db.orphans
  {
    StrandedExactlyIfLeftBehind(states, events, k, b);
  }

  datatype Pass = Pass(now: Time, done: Moves)

  function Passes(w: World, passes: seq<Pass>): World {
    if passes == [] then w
    else
      var before := Passes(w, passes[..|passes| - 1]);
      Maintain(before, passes[|passes| - 1].now, passes[|passes| - 1].done)
  }

  /** No number of passes brings a stranded object back. */
  lemma {:induction false} StrandedObjectsStay(w: World, passes: seq<Pass>, b: Blob)
    requires Stranded(w, b)
    ensures Stranded(Passes(w, passes), b)
  {
    if passes != [] {
      StrandedObjectsStay(w, passes[..|passes| - 1], b);
    }
  }

  /** A history's last state holds a retained object that no number of passes makes live again. */
  ghost predicate LosesProtected(states: seq<World>, events: seq<Event>, b: Blob) {
    && History(states, events) && states[0] == Genesis(0)
    && b in states[|events|].db.retained && Stranded(states[|events|], b)
    && forall passes: seq<Pass> :: b !in Passes(states[|events|], passes).disk.live
  }

  lemma StrandedIsLost(states: seq<World>, events: seq<Event>, b: Blob)
    requires History(states, events) && states[0] == Genesis(0)
    requires b in states[|events|].db.retained && Stranded(states[|events|], b)
    ensures LosesProtected(states, events, b)
  {
    forall passes: seq<Pass>
      ensures b !in Passes(states[|events|], passes).disk.live
    {
      StrandedObjectsStay(states[|events|], passes, b);
    }
  }

  const NOTHING := Moves({}, {}, {})

  /** An object published at 0 and moved to quarantine by a whole pass at 1. */
  function Quarantined(): (seq<World>, seq<Event>) {
    var published := Event(PublishOnlyOp("x"), 0);
    var passed := Event(MaintainOp(Moves({}, {"x"}, {})), 1);
    var first := Apply(Genesis(0), published.op, 0);
    ([Genesis(0), first, Apply(first, passed.op, 1)], [published, passed])
  }

  /** An object alone in quarantine, proved an orphan at 1. */
  ghost predicate AwaitsDeletion(w: World) {
    && w.disk == Disk({}, {"x"}, map[]) && w.db.orphans == map["x" := 1]
    && w.db.retained == {} && w.db.entries == []
  }

  lemma WholePassQuarantines()
    ensures var first := Genesis(0).(disk := PublishBlob(Genesis(0).disk, Some("x")));
            AwaitsDeletion(Maintain(first, 1, Moves({}, {"x"}, {})))
  {
    var first := Genesis(0).(disk := Disk({"x"}, {}, map[]));
    assert EntryBlobs(first.db.entries) == {};
    assert PlannedMoves(first, 1).quarantined == {"x"};
  }

  lemma QuarantinedIsReachable()
    ensures var (states, events) := Quarantined();
            && History(states, events) && |events| == 2 && events[1].now == 1 && states[0] == Genesis(0)
            && AwaitsDeletion(states[2])
  {
    hide Inv, Apply, Maintain, AwaitsDeletion, PublishBlob;
    GenesisIsGood(0);
    WholePassQuarantines();
    var first := Genesis(0).(disk := PublishBlob(Genesis(0).disk, Some("x")));
    OpsApply(Genesis(0), "x", NOTHING, 0);
    OpsApply(first, "x", Moves({}, {"x"}, {}), 1);
  }

  /** The history with two more events. */
  lemma Continued(states: seq<World>, events: seq<Event>, first: Event, second: Event)
    requires History(states, events) && events != [] && events[|events| - 1].now <= first.now <= second.now
    ensures var a := Apply(states[|events|], first.op, first.now);
            History(states + [a, Apply(a, second.op, second.now)], events + [first, second])
  {
    hide Apply, Inv;
  }

  lemma OpsApply(w: World, b: Blob, done: Moves, now: Time)
    ensures Apply(w, RetainOp(b), now) == Retain(w, b) && Apply(w, MaintainOp(done), now) == Maintain(w, now, done)
    ensures Apply(w, PublishOnlyOp(b), now) == w.(disk := PublishBlob(w.disk, Some(b)))
  {}

  lemma LostRestore(w: World)
    requires AwaitsDeletion(w)
    ensures "x" in PlannedMoves(Retain(w, "x"), 2).restored
    ensures var after := Maintain(Retain(w, "x"), 2, NOTHING); Stranded(after, "x") && "x" in after.db.retained
  {
    assert "x" in PlannedMoves(Retain(w, "x"), 2).restored;
  }

  lemma LostDelete(w: World)
    requires AwaitsDeletion(w)
    ensures var after := Retain(Maintain(w, 2, NOTHING), "x"); Stranded(after, "x") && "x" in after.db.retained
  {
    assert EntryBlobs(w.db.entries) == {};
    assert "x" in PlannedMoves(w, 2).deleted;
  }

  /** A pass that stops before a restore strands an object that is already retained. */
  lemma ALostRestoreStrandsAProtectedObject()
    ensures exists states: seq<World>, events: seq<Event>, b: Blob ::
              && LosesProtected(states, events, b) && |events| == 4 && events[2].op == RetainOp(b) && events[3].op == MaintainOp(NOTHING)
              && |states| == 5 && b in PlannedMoves(states[3], events[3].now).restored
  {
    hide Quarantined, Apply, Maintain, Retain, Stranded, AwaitsDeletion;
    var (states, events) := Quarantined();
    QuarantinedIsReachable();
    var retain, stop := Event(RetainOp("x"), 2), Event(MaintainOp(NOTHING), 2);
    var retained := Retain(states[2], "x");
    var after := Maintain(retained, 2, NOTHING);
    OpsApply(states[2], "x", NOTHING, 2);
    OpsApply(retained, "x", NOTHING, 2);
    LostRestore(states[2]);
    hide PlannedMoves;
    Continued(states, events, retain, stop);
    hide History;
    StrandedIsLost(states + [retained, after], events + [retain, stop], "x");
    hide LosesProtected;
  }

  /** A pass that stops before a delete strands an object that is retained afterwards. */
  lemma ALostDeleteStrandsAnObjectRetainedLater()
    ensures exists states: seq<World>, events: seq<Event>, b: Blob ::
              LosesProtected(states, events, b) && |events| == 4 && events[2].op == MaintainOp(NOTHING) && events[3].op == RetainOp(b)
  {
    hide Quarantined, Apply, Maintain, Retain, Stranded, AwaitsDeletion;
    var (states, events) := Quarantined();
    QuarantinedIsReachable();
    var stop, retain := Event(MaintainOp(NOTHING), 2), Event(RetainOp("x"), 2);
    var stopped := Maintain(states[2], 2, NOTHING);
    var after := Retain(stopped, "x");
    OpsApply(states[2], "x", NOTHING, 2);
    OpsApply(stopped, "x", NOTHING, 2);
    LostDelete(states[2]);
    Continued(states, events, stop, retain);
    hide History;
    StrandedIsLost(states + [stopped, after], events + [stop, retain], "x");
    hide LosesProtected;
  }
}
