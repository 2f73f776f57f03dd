/**
 Crash-safe settlement: completeRun and reconcileAcceptedRuns, with a crash or a storage fault at any
 point, followed by any number of recoveries.
 */
module Settlement {
  import opened Options
  import opened AuthorityTables
  import opened AuthorityOperations
  import opened AuthorityInvariants
  import opened AuthorityHistory

  // ---------------------------------------------------------------- one settlement transaction

  /** What becomes of a settlement transaction; a fault throws, a crash ends the process. */
  datatype Fate = Commits | Faults | CrashesBefore | CrashesAfter

  /** What becomes of the removal of a Run's evidence file. */
  datatype Removal = Removes | RemovalThrows | CrashesAtRemoval

  datatype Signal = Done | Raised | Crashed

  function SettleWith(w: World, r: RunId, outcome: RunState, text: string, checkpoint: Option<string>,
                      now: Time, fate: Fate): (World, Signal)
  {
    var settled := Settle(w, r, outcome, text, checkpoint, now, false);
    var unsettled := Settle(w, r, outcome, text, checkpoint, now, true);
    match fate
    case Commits => if Settleable(w.db, r) then (settled, Done) else (unsettled, Raised)
    case Faults => (unsettled, Raised)
    case CrashesBefore => (unsettled, Crashed)
    case CrashesAfter => if Settleable(w.db, r) then (settled, Crashed) else (unsettled, Raised)
  }

  // ---------------------------------------------------------------- completing a run

  /** completeRun: stage the evidence, settle, remove the evidence. */
  function CompleteRun(w: World, r: RunId, text: string, checkpoint: string, now: Time,
                       staged: bool, fate: Fate, removal: Removal): (World, Signal)
  {
    if !staged then (w, Crashed)
    else if checkpoint == "" || (r in w.disk.evidence && w.disk.evidence[r] != Valid(text, checkpoint)) then (w, Raised)
    else
      var (after, signal) := SettleWith(StageEvidence(w, r, text, checkpoint), r, Completed, text, Some(checkpoint), now, fate);
      if !signal.Done? then (after, signal)
      else match removal
        case Removes => (RemoveEvidence(after, r), Done)
        case RemovalThrows => (after, Raised)
        case CrashesAtRemoval => (after, Crashed)
  }

  // ---------------------------------------------------------------- recovery

  const CANCELLATION_UNPROVED :=
    "Host recovery interrupted an unproved cancellation. Partial output and committed side effects were preserved."
  const COMPLETION_UNPROVED :=
    "Host recovery interrupted execution because normal completion could not be proved. Partial output and committed side effects were preserved."

  /** What becomes of looking for a Run's evidence: it is read as it is, or the file cannot be read. */
  datatype Reading = Reads | ReadFails

  datatype RunFate = RunFate(reading: Reading, completion: Fate, removal: Removal, interruption: Fate)

  predicate Unfinished(db: Db, r: RunId) {
    r < |db.runs| && (db.runs[r].state.Executing? || db.runs[r].state.Cancelling?)
  }

  predicate HasProof(w: World, r: RunId) {
    r in w.disk.evidence && w.disk.evidence[r].Valid?
  }

  function Interrupt(w: World, r: RunId, detail: string, now: Time, fate: Fate): (World, bool) {
    var (after, signal) := SettleWith(w, r, Interrupted, detail, None, now, fate);
    (after, signal.Done?)
  }

  /** One turn of the recovery loop; the flag says whether the loop goes on. */
  function RecoverRun(w: World, r: RunId, now: Time, fate: RunFate): (World, bool)
    requires r < |w.db.runs|
  {
    if w.db.runs[r].state.Cancelling? then Interrupt(w, r, CANCELLATION_UNPROVED, now, fate.interruption)
    else if fate.reading.ReadFails? || !HasProof(w, r) then Interrupt(w, r, COMPLETION_UNPROVED, now, fate.interruption)
    else
      var proof := w.disk.evidence[r];
      var (after, signal) := SettleWith(w, r, Completed, proof.text, Some(proof.checkpoint), now, fate.completion);
      match signal
      case Crashed => (after, false)
      case Raised => Interrupt(after, r, COMPLETION_UNPROVED, now, fate.interruption)
      case Done =>
        match fate.removal
        case Removes => (RemoveEvidence(after, r), true)
        case CrashesAtRemoval => (after, false)
        case RemovalThrows => Interrupt(after, r, COMPLETION_UNPROVED, now, fate.interruption)
  }

  /** The Runs the recovery query selects. */
  function ExecutingRuns(runs: seq<Run>): (ids: seq<RunId>)
    ensures forall k :: 0 <= k < |ids| ==> ids[k] < |runs|
  {
    if runs == [] then []
    else
      var front := ExecutingRuns(runs[..|runs| - 1]);
      var last := runs[|runs| - 1];
      if last.state.Executing? || last.state.Cancelling? then front + [|runs| - 1] else front
  }

  function RecoverAll(w: World, ids: seq<RunId>, now: Time, plan: RunId -> RunFate): (World, bool)
    requires forall k :: 0 <= k < |ids| ==> ids[k] < |w.db.runs|
    decreases |ids|
  {
    if ids == [] then (w, true)
    else
      var (after, going) := RecoverRun(w, ids[0], now, plan(ids[0]));
      RecoverRunKeepsRows(w, ids[0], now, plan(ids[0]));
      if going then RecoverAll(after, ids[1..], now, plan) else (after, false)
  }

  function SessionsOf(runs: seq<Run>, ids: seq<RunId>): seq<SessionId>
    requires forall k :: 0 <= k < |ids| ==> ids[k] < |runs|
  {
    seq(|ids|, k requires 0 <= k < |ids| => runs[ids[k]].session)
  }

  function HoldAll(w: World, sessions: seq<SessionId>): World {
    if sessions == [] then w
    else HoldQueued(HoldAll(w, sessions[..|sessions| - 1]), sessions[|sessions| - 1])
  }

  /** One start of the Host: its clock, what befalls each Run, and how many Sessions it then held. */
  datatype Attempt = Attempt(now: Time, plan: RunId -> RunFate, held: nat)

  /** reconcileAcceptedRuns; the flag says whether it finished. */
  function Reconcile(w: World, attempt: Attempt): (World, bool) {
    var ids := ExecutingRuns(w.db.runs);
    var (after, going) := RecoverAll(w, ids, attempt.now, attempt.plan);
    var affected := SessionsOf(w.db.runs, ids);
    if !going then (after, false)
    else if attempt.held < |affected| then (HoldAll(after, affected[..attempt.held]), false)
    else (HoldAll(after, affected), true)
  }

  function Recoveries(w: World, attempts: seq<Attempt>): World
    decreases |attempts|
  {
    if attempts == [] then w else Recoveries(Reconcile(w, attempts[0]).0, attempts[1..])
  }

  // ---------------------------------------------------------------- what one settlement does

  /** A settlement row of a Run. */
  ghost predicate Row(e: Entry, r: RunId, kind: EntryKind, text: string, checkpoint: Option<string>) {
    e.run == r && e.kind == kind && e.text == text && e.checkpoint == checkpoint && e.blob == Some(text) && e.finalized
  }

  /** Only Run r and its evidence may have moved; rows are only appended. */
  ghost predicate OnlyRun(a: World, b: World, r: RunId) {
    && |b.db.runs| == |a.db.runs| && b.db.sessions.Keys == a.db.sessions.Keys
    && (forall q :: 0 <= q < |a.db.runs| ==> b.db.runs[q].session == a.db.runs[q].session)
    && (forall q :: 0 <= q < |a.db.runs| && q != r ==> b.db.runs[q] == a.db.runs[q])
    && (forall q :: q != r ==> (q in b.disk.evidence <==> q in a.disk.evidence))
    && (forall q :: q != r && q in a.disk.evidence ==> b.disk.evidence[q] == a.disk.evidence[q])
    && a.db.entries <= b.db.entries
  }

  /** Run r is as it was, with the evidence it had. */
  ghost predicate Untouched(a: World, b: World, r: RunId) {
    && r < |a.db.runs| && r < |b.db.runs| && b.db.runs[r] == a.db.runs[r]
    && (r in b.disk.evidence <==> r in a.disk.evidence)
    && (r in a.disk.evidence ==> b.disk.evidence[r] == a.disk.evidence[r])
  }

  /** Run r took a terminal state, with a row that says why. */
  ghost predicate SettledAs(b: World, r: RunId, state: RunState, kind: EntryKind, text: string,
                            checkpoint: Option<string>)
  {
    && r < |b.db.runs| && b.db.runs[r].state == state
    && exists i :: 0 <= i < |b.db.entries| && Row(b.db.entries[i], r, kind, text, checkpoint)
  }

  lemma SettleEffect(w: World, r: RunId, outcome: RunState, text: string, checkpoint: Option<string>, now: Time)
    requires Settleable(w.db, r)
    ensures var b := Settle(w, r, outcome, text, checkpoint, now, false);
            && OnlyRun(w, b, r) && b.disk.evidence == w.disk.evidence
            && SettledAs(b, r, outcome, if outcome.Completed? then ResponseEntry else OutcomeEntry, text, checkpoint)
  {
    var b := Settle(w, r, outcome, text, checkpoint, now, false);
    hide NextEntryOrder, ReadStateOf;
    assert b.db.runs == w.db.runs[r := w.db.runs[r].(state := outcome)];
    var kind := if outcome.Completed? then ResponseEntry else OutcomeEntry;
    var e := NewEntry(w.db, w.db.runs[r].session, r, kind, text, checkpoint, Some(text), true, None);
    assert b.db.entries == w.db.entries + [e];
    assert Row(b.db.entries[|w.db.entries|], r, kind, text, checkpoint);
  }

  lemma SettleWithEffect(w: World, r: RunId, outcome: RunState, text: string, checkpoint: Option<string>,
                         now: Time, fate: Fate)
    requires r < |w.db.runs|
    ensures var (b, signal) := SettleWith(w, r, outcome, text, checkpoint, now, fate);
            && OnlyRun(w, b, r) && b.disk.evidence == w.disk.evidence
            && (if Settleable(w.db, r) && (fate.Commits? || fate.CrashesAfter?)
                then SettledAs(b, r, outcome, if outcome.Completed? then ResponseEntry else OutcomeEntry, text, checkpoint)
                else b.db == w.db)
            && (signal.Done? <==> fate.Commits? && Settleable(w.db, r))
            && (fate.Faults? ==> signal.Raised?) && (fate.CrashesBefore? ==> signal.Crashed?)
            && (Settleable(w.db, r) && fate.CrashesAfter? ==> signal.Crashed?)
            && (!Settleable(w.db, r) ==> !signal.Done?)
  {
    if Settleable(w.db, r) {
      SettleEffect(w, r, outcome, text, checkpoint, now);
    }
    hide OnlyRun, SettledAs, SettleTransaction;
    assert OnlyRun(w, Settle(w, r, outcome, text, checkpoint, now, true), r) by { SelfOnly(w, r, PublishBlob(w.disk, Some(text))); }
  }

  lemma SelfOnly(w: World, r: RunId, disk: Disk)
    requires disk.evidence == w.disk.evidence
    ensures OnlyRun(w, World(w.db, disk), r)
  {}

  // ---------------------------------------------------------------- one turn of recovery

  /** The terminal state recovery owes a Run that was unfinished in `a`. */
  ghost predicate SettledRightly(a: World, b: World, r: RunId)
    requires Unfinished(a.db, r)
  {
    if a.db.runs[r].state.Cancelling? then
      SettledAs(b, r, Interrupted, OutcomeEntry, CANCELLATION_UNPROVED, None)
    else if HasProof(a, r) then
      SettledAs(b, r, Completed, ResponseEntry, a.disk.evidence[r].text, Some(a.disk.evidence[r].checkpoint))
    else
      SettledAs(b, r, Interrupted, OutcomeEntry, COMPLETION_UNPROVED, None)
  }

  /** The evidence cannot be read, or its completion faults, while the interruption after that commits. */
  predicate SwallowsProof(fate: RunFate) {
    (fate.reading.ReadFails? || fate.completion.Faults?) && (fate.interruption.Commits? || fate.interruption.CrashesAfter?)
  }

  lemma RecoverRunKeepsRows(w: World, r: RunId, now: Time, fate: RunFate)
    requires r < |w.db.runs|
    ensures OnlyRun(w, RecoverRun(w, r, now, fate).0, r)
  {
    hide Settle, Settleable, SettledAs;
    SettleWithEffect(w, r, Interrupted, CANCELLATION_UNPROVED, None, now, fate.interruption);
    SettleWithEffect(w, r, Interrupted, COMPLETION_UNPROVED, None, now, fate.interruption);
    if HasProof(w, r) {
      var proof := w.disk.evidence[r];
      SettleWithEffect(w, r, Completed, proof.text, Some(proof.checkpoint), now, fate.completion);
      var (after, signal) := SettleWith(w, r, Completed, proof.text, Some(proof.checkpoint), now, fate.completion);
      SettleWithEffect(after, r, Interrupted, COMPLETION_UNPROVED, None, now, fate.interruption);
      hide SettleWith;
    }
  }

  /** A turn leaves the Run as it was or settles it as owed, unless a fault swallows its proof. */
  lemma RecoverRunIsRight(w: World, r: RunId, now: Time, fate: RunFate)
    requires Unfinished(w.db, r) && Settleable(w.db, r)
    requires w.db.runs[r].state.Executing? && HasProof(w, r) ==> !SwallowsProof(fate)
    ensures var (b, going) := RecoverRun(w, r, now, fate);
            SettledRightly(w, b, r) || (Untouched(w, b, r) && !going)
  {
    hide OnlyRun, SettledAs, Settle;
    SettleWithEffect(w, r, Interrupted, CANCELLATION_UNPROVED, None, now, fate.interruption);
    SettleWithEffect(w, r, Interrupted, COMPLETION_UNPROVED, None, now, fate.interruption);
    if w.db.runs[r].state.Executing? && HasProof(w, r) {
      ProvedRunIsRight(w, r, now, fate);
    }
    hide SettleWith;
  }

  lemma SettledIsUnsettleable(b: World, r: RunId, state: RunState, kind: EntryKind, text: string, checkpoint: Option<string>)
    requires SettledAs(b, r, state, kind, text, checkpoint) && state.Terminal()
    ensures !Settleable(b.db, r)
  {}

  lemma SettledAsOnDatabase(b: World, c: World, r: RunId, state: RunState, kind: EntryKind, text: string,
                            checkpoint: Option<string>)
    requires SettledAs(b, r, state, kind, text, checkpoint) && c.db == b.db
    ensures SettledAs(c, r, state, kind, text, checkpoint)
  {}

  /** Evidence that cannot be read leaves only the interruption. */
  lemma UnreadRun(w: World, r: RunId, now: Time, fate: RunFate)
    requires Settleable(w.db, r) && w.db.runs[r].state.Executing? && fate.reading.ReadFails?
    ensures var (b, going) := RecoverRun(w, r, now, fate);
            if fate.interruption.Commits? || fate.interruption.CrashesAfter?
            then SettledAs(b, r, Interrupted, OutcomeEntry, COMPLETION_UNPROVED, None)
            else Untouched(w, b, r) && !going
  {
    SettleWithEffect(w, r, Interrupted, COMPLETION_UNPROVED, None, now, fate.interruption);
    hide OnlyRun, SettledAs, SettleWith, Settle;
  }

  /** Evidence that is read completes the Run, unless the completion faults; then only the interruption is left. */
  lemma ReadRun(w: World, r: RunId, now: Time, fate: RunFate)
    requires Settleable(w.db, r) && w.db.runs[r].state.Executing? && HasProof(w, r) && fate.reading.Reads?
    ensures var (b, going) := RecoverRun(w, r, now, fate);
            if fate.completion.Commits? || fate.completion.CrashesAfter?
            then SettledAs(b, r, Completed, ResponseEntry, w.disk.evidence[r].text, Some(w.disk.evidence[r].checkpoint))
            else if SwallowsProof(fate) then SettledAs(b, r, Interrupted, OutcomeEntry, COMPLETION_UNPROVED, None)
            else Untouched(w, b, r) && !going
  {
    var proof := w.disk.evidence[r];
    var (after, signal) := SettleWith(w, r, Completed, proof.text, Some(proof.checkpoint), now, fate.completion);
    var b := RecoverRun(w, r, now, fate).0;
    SettleWithEffect(w, r, Completed, proof.text, Some(proof.checkpoint), now, fate.completion);
    SettleWithEffect(after, r, Interrupted, COMPLETION_UNPROVED, None, now, fate.interruption);
    hide OnlyRun, SettleWith, Settle;
    if fate.completion.Commits? || fate.completion.CrashesAfter? {
      SettledIsUnsettleable(after, r, Completed, ResponseEntry, proof.text, Some(proof.checkpoint));
      hide Settleable, SettledAs;
      assert b.db == after.db;
      SettledAsOnDatabase(after, b, r, Completed, ResponseEntry, proof.text, Some(proof.checkpoint));
    } else {
      hide SettledAs;
    }
  }

  lemma ProvedRunIsRight(w: World, r: RunId, now: Time, fate: RunFate)
    requires Settleable(w.db, r) && w.db.runs[r].state.Executing? && HasProof(w, r) && !SwallowsProof(fate)
    ensures var (b, going) := RecoverRun(w, r, now, fate);
            SettledRightly(w, b, r) || (Untouched(w, b, r) && !going)
  {
    hide RecoverRun, SettledAs, Untouched;
    if fate.reading.Reads? {
      ReadRun(w, r, now, fate);
    } else {
      UnreadRun(w, r, now, fate);
    }
  }

  /**
   A Run with durable proof of completion is interrupted by a turn of recovery exactly when reading the
   proof fails or the completing transaction faults, and the interrupting one commits: the loop's catch
   clause takes any fault for missing proof.
   */
  lemma ProofIsSwallowedExactlyByAFault(w: World, r: RunId, now: Time, fate: RunFate)
    requires Settleable(w.db, r) && w.db.runs[r].state.Executing? && HasProof(w, r)
    ensures var runs := RecoverRun(w, r, now, fate).0.db.runs;
            r < |runs| && (runs[r].state.Interrupted? <==> SwallowsProof(fate))
  {
    hide RecoverRun;
    if fate.reading.Reads? {
      ReadRun(w, r, now, fate);
    } else {
      UnreadRun(w, r, now, fate);
    }
  }

  /** A Session is created, its first prompt executes, and the evidence of its completion is staged. */
  function ProvedExecution(): (seq<World>, seq<Event>) {
    var created := Event(CreateSessionOp(0, None, None, None), 1);
    var submitted := Event(CommandOp(SubmitEnvelope(0, 0, "prompt", None, false), None, false), 2);
    var staged := Event(StageEvidenceOp(0, "done", "checkpoint"), 3);
    var first := Apply(Genesis(0), created.op, 1);
    var second := Apply(first, submitted.op, 2);
    ([Genesis(0), first, second, Apply(second, staged.op, 3)], [created, submitted, staged])
  }

  lemma FirstPromptExecutes()
    ensures var created := CreateSession(Genesis(0), 0, None, None, None, 1);
            var w := Submit(created, SubmitEnvelope(0, 0, "prompt", None, false), 2).0;
            && w.db.runs == [Run(0, 1, "prompt", Executing)] && 0 in w.db.sessions && w.disk.evidence == map[]
  {}

  lemma ProvedExecutionIsReachable()
    ensures var (states, events) := ProvedExecution();
            && History(states, events) && |events| == 3
            && Settleable(states[3].db, 0) && states[3].db.runs[0].state.Executing? && HasProof(states[3], 0)
  {
    hide Inv, Submit, CreateSession, Genesis;
    GenesisIsGood(0);
    FirstPromptExecutes();
    GenesisCommitsAt(0);
  }

  lemma GenesisCommitsAt(now: Time)
    ensures Genesis(now).db.committedAt == now
  {}

  /**
   Any fault that swallows proof does so in a reachable world: recovery interrupts a Run whose evidence
   of completion is whole.
   */
  lemma ATransientFaultInterruptsAProvedRun(fate: RunFate)
    requires SwallowsProof(fate)
    ensures exists states: seq<World>, events: seq<Event> ::
              && History(states, events) && Settleable(states[|events|].db, 0)
              && states[|events|].db.runs[0].state.Executing? && HasProof(states[|events|], 0)
              && 0 < |RecoverRun(states[|events|], 0, 3, fate).0.db.runs|
              && RecoverRun(states[|events|], 0, 3, fate).0.db.runs[0].state.Interrupted?
  {
    var (states, events) := ProvedExecution();
    ProvedExecutionIsReachable();
    ProofIsSwallowedExactlyByAFault(states[3], 0, 3, fate);
    hide RecoverRun, History, Settleable, ProvedExecution;
  }

  // ---------------------------------------------------------------- the loop

  /** What the loop has done to the Runs it was given so far. */
  ghost predicate Recovered(a: World, b: World, ids: seq<RunId>, going: bool) {
    && |b.db.runs| == |a.db.runs| && b.db.sessions.Keys == a.db.sessions.Keys
    && a.db.entries <= b.db.entries
    && (forall q :: 0 <= q < |a.db.runs| ==> b.db.runs[q].session == a.db.runs[q].session)
    && (forall q :: 0 <= q < |a.db.runs| && q !in ids ==> Untouched(a, b, q))
    && (forall q :: q in ids && Unfinished(a.db, q) ==> SettledRightly(a, b, q) || (Untouched(a, b, q) && !going))
  }

  lemma SettledStays(a: World, b: World, c: World, q: RunId)
    requires Unfinished(a.db, q) && SettledRightly(a, b, q)
    requires b.db.entries <= c.db.entries && q < |c.db.runs| && c.db.runs[q] == b.db.runs[q]
    ensures SettledRightly(a, c, q)
  {}

  lemma SettledOfSame(a: World, b: World, c: World, q: RunId)
    requires Unfinished(a.db, q) && Untouched(a, b, q) && SettledRightly(b, c, q)
    ensures SettledRightly(a, c, q)
  {
    hide SettledAs;
  }

  lemma RecoveredTurn(a: World, b: World, c: World, ids: seq<RunId>, going: bool)
    requires ids != [] && ids[0] !in ids[1..] && OnlyRun(a, b, ids[0]) && Unfinished(a.db, ids[0])
    requires SettledRightly(a, b, ids[0]) && Recovered(b, c, ids[1..], going)
    ensures Recovered(a, c, ids, going)
  {
    var r := ids[0];
    forall q | 0 <= q < |a.db.runs| && q !in ids
      ensures Untouched(a, c, q)
    {
      assert q !in ids[1..];
      assert Untouched(b, c, q);
    }
    forall q | q in ids && Unfinished(a.db, q)
      ensures SettledRightly(a, c, q) || (Untouched(a, c, q) && !going)
    {
      if q == r {
        assert Untouched(b, c, q);
        SettledStays(a, b, c, q);
      } else {
        assert q in ids[1..] && Untouched(a, b, q);
        if SettledRightly(b, c, q) {
          SettledOfSame(a, b, c, q);
        }
      }
    }
  }

  /** The plan never swallows a proof. */
  ghost predicate Safe(w: World, plan: RunId -> RunFate) {
    forall r: RunId :: Unfinished(w.db, r) && w.db.runs[r].state.Executing? && HasProof(w, r) ==> !SwallowsProof(plan(r))
  }

  /** Every Run belongs to a Session, as the foreign key demands. */
  ghost predicate SessionsKnown(db: Db) {
    forall r :: 0 <= r < |db.runs| ==> db.runs[r].session in db.sessions
  }

  lemma {:induction false} RecoverAllIsRight(w: World, ids: seq<RunId>, now: Time, plan: RunId -> RunFate)
    requires forall k :: 0 <= k < |ids| ==> ids[k] < |w.db.runs|
    requires SessionsKnown(w.db) && forall q :: q in ids ==> Unfinished(w.db, q)
    requires forall j, k :: 0 <= j < k < |ids| ==> ids[j] != ids[k]
    requires forall q :: q in ids && w.db.runs[q].state.Executing? && HasProof(w, q) ==> !SwallowsProof(plan(q))
    ensures Recovered(w, RecoverAll(w, ids, now, plan).0, ids, RecoverAll(w, ids, now, plan).1)
    decreases |ids|
  {
    if ids != [] {
      var r := ids[0];
      var (after, going) := RecoverRun(w, r, now, plan(r));
      RecoverRunKeepsRows(w, r, now, plan(r));
      assert r in ids;
      RecoverRunIsRight(w, r, now, plan(r));
      hide RecoverRun, SettledAs;
      if going {
        forall q | q in ids[1..]
          ensures q in ids && Untouched(w, after, q)
        {
        }
        RecoverAllIsRight(after, ids[1..], now, plan);
        var (b, on) := RecoverAll(after, ids[1..], now, plan);
        RecoveredTurn(w, after, b, ids, on);
      } else {
        forall q | q in ids && q != r
          ensures Untouched(w, after, q)
        {
        }
      }
    }
  }

  // ---------------------------------------------------------------- holding, attempts, recoveries

  /** Holding moves queued Runs only. */
  ghost predicate HeldOnly(a: World, b: World) {
    && b.disk == a.disk && b.db == a.db.(runs := b.db.runs) && |b.db.runs| == |a.db.runs|
    && forall q :: 0 <= q < |a.db.runs| ==>
         b.db.runs[q] == a.db.runs[q] || (a.db.runs[q].state.Queued? && b.db.runs[q] == a.db.runs[q].(state := Held))
  }

  lemma {:induction false} HoldAllHoldsOnly(w: World, sessions: seq<SessionId>)
    ensures HeldOnly(w, HoldAll(w, sessions))
  {
    if sessions != [] {
      HoldAllHoldsOnly(w, sessions[..|sessions| - 1]);
    }
  }

  lemma {:induction false} ExecutingRunsAreUnfinished(db: Db, runs: seq<Run>)
    requires runs <= db.runs
    ensures var ids := ExecutingRuns(runs);
            && (forall q: RunId :: q in ids <==> q < |runs| && Unfinished(db, q))
            && (forall j, k :: 0 <= j < k < |ids| ==> ids[j] != ids[k])
  {
    if runs != [] {
      ExecutingRunsAreUnfinished(db, runs[..|runs| - 1]);
    }
  }

  /**
   What any number of attempts does to a world: unfinished Runs are settled as owed or untouched,
   finished ones stay, and no unfinished Run appears.
   */
  ghost predicate RecoveredFrom(a: World, b: World) {
    && |b.db.runs| == |a.db.runs| && b.db.sessions.Keys == a.db.sessions.Keys && a.db.entries <= b.db.entries
    && (forall q :: 0 <= q < |a.db.runs| ==> b.db.runs[q].session == a.db.runs[q].session)
    && (forall q: RunId :: Unfinished(a.db, q) ==> Untouched(a, b, q) || SettledRightly(a, b, q))
    && (forall q: RunId :: q < |a.db.runs| && !Unfinished(a.db, q) ==>
          b.db.runs[q] == a.db.runs[q] || (a.db.runs[q].state.Queued? && b.db.runs[q].state.Held?))
  }

  lemma HeldAfterRecovery(a: World, b: World, c: World, ids: seq<RunId>, going: bool)
    requires Recovered(a, b, ids, going) && HeldOnly(b, c)
    requires forall q: RunId :: q in ids <==> q < |a.db.runs| && Unfinished(a.db, q)
    ensures RecoveredFrom(a, c)
    ensures going ==> forall q: RunId :: Unfinished(a.db, q) ==> SettledRightly(a, c, q)
  {
    forall q: RunId | Unfinished(a.db, q)
      ensures Untouched(a, c, q) || SettledRightly(a, c, q)
      ensures going ==> SettledRightly(a, c, q)
    {
      assert q in ids;
      assert Untouched(a, b, q) ==> c.db.runs[q] == b.db.runs[q];
      if SettledRightly(a, b, q) {
        SettledStays(a, b, c, q);
      }
    }
    hide SettledAs;
    forall q: RunId | q < |a.db.runs| && !Unfinished(a.db, q)
      ensures c.db.runs[q] == a.db.runs[q] || (a.db.runs[q].state.Queued? && c.db.runs[q].state.Held?)
    {
      assert q !in ids;
      assert Untouched(a, b, q);
    }
  }

  lemma ReconcileIsRight(w: World, attempt: Attempt)
    requires SessionsKnown(w.db) && Safe(w, attempt.plan)
    ensures RecoveredFrom(w, Reconcile(w, attempt).0)
    ensures Reconcile(w, attempt).1 ==>
              forall q: RunId :: Unfinished(w.db, q) ==> SettledRightly(w, Reconcile(w, attempt).0, q)
  {
    var ids := ExecutingRuns(w.db.runs);
    ExecutingRunsAreUnfinished(w.db, w.db.runs);
    var (after, going) := RecoverAll(w, ids, attempt.now, attempt.plan);
    var affected := SessionsOf(w.db.runs, ids);
    HoldAllHoldsOnly(after, []);
    hide Recovered, RecoveredFrom, SettledRightly, RecoverAll, ExecutingRuns, SessionsOf;
    assert forall j, k :: 0 <= j < k < |ids| ==> ids[j] != ids[k];
    RecoverAllIsRight(w, ids, attempt.now, attempt.plan);
    if !going {
      HeldAfterRecovery(w, after, after, ids, going);
    } else {
      var some := if attempt.held < |affected| then affected[..attempt.held] else affected;
      HoldAllHoldsOnly(after, some);
      hide HoldAll;
      HeldAfterRecovery(w, after, HoldAll(after, some), ids, going);
    }
  }

  lemma RecoveriesCompose(a: World, b: World, c: World)
    requires RecoveredFrom(a, b) && RecoveredFrom(b, c)
    ensures RecoveredFrom(a, c)
    ensures forall q: RunId :: Unfinished(a.db, q) && SettledRightly(a, b, q) ==> SettledRightly(a, c, q)
    ensures forall q: RunId :: Unfinished(a.db, q) && Unfinished(b.db, q) && SettledRightly(b, c, q) ==> SettledRightly(a, c, q)
  {
    forall q: RunId | Unfinished(a.db, q)
      ensures Untouched(a, c, q) || SettledRightly(a, c, q)
      ensures SettledRightly(a, b, q) ==> SettledRightly(a, c, q)
      ensures Unfinished(b.db, q) && SettledRightly(b, c, q) ==> SettledRightly(a, c, q)
    {
      if SettledRightly(a, b, q) {
        SettledRunIsFinished(a, b, q);
        assert !Unfinished(b.db, q);
        SettledStays(a, b, c, q);
      } else {
        assert Untouched(a, b, q) && Unfinished(b.db, q);
        if SettledRightly(b, c, q) {
          SettledOfSame(a, b, c, q);
        }
      }
    }
  }

  lemma SettledRunIsFinished(a: World, b: World, q: RunId)
    requires Unfinished(a.db, q) && SettledRightly(a, b, q)
    ensures q < |b.db.runs| && b.db.runs[q].state.Terminal()
  {}

  // ---------------------------------------------------------------- queues after recovery

  lemma {:induction false} RecoverAllKeepsOthers(w: World, ids: seq<RunId>, now: Time, plan: RunId -> RunFate)
    requires forall k :: 0 <= k < |ids| ==> ids[k] < |w.db.runs|
    ensures var b := RecoverAll(w, ids, now, plan).0;
            |b.db.runs| == |w.db.runs| && forall q :: 0 <= q < |w.db.runs| && q !in ids ==> b.db.runs[q] == w.db.runs[q]
    decreases |ids|
  {
    if ids != [] {
      RecoverRunKeepsRows(w, ids[0], now, plan(ids[0]));
      var (after, going) := RecoverRun(w, ids[0], now, plan(ids[0]));
      hide RecoverRun;
      if going {
        RecoverAllKeepsOthers(after, ids[1..], now, plan);
      }
    }
  }

  lemma {:induction false} HoldAllHolds(w: World, sessions: seq<SessionId>, q: RunId)
    requires q < |w.db.runs|
    ensures var b := HoldAll(w, sessions);
            && q < |b.db.runs|
            && b.db.runs[q] == if w.db.runs[q].session in sessions && w.db.runs[q].state.Queued?
                               then w.db.runs[q].(state := Held) else w.db.runs[q]
  {
    if sessions != [] {
      var n := |sessions| - 1;
      HoldAllHolds(w, sessions[..n], q);
      assert sessions == sessions[..n] + [sessions[n]];
    }
  }

  /**
   A recovery that finishes holds every queued Run of a Session in which a Run was executing or being cancelled,
   and leaves every other Run that was not such a Run as it was.
   */
  lemma FinishedRecoveryHoldsQueues(w: World, attempt: Attempt, q: RunId)
    requires Reconcile(w, attempt).1 && q < |w.db.runs| && !Unfinished(w.db, q)
    ensures var b := Reconcile(w, attempt).0;
            && q < |b.db.runs|
            && b.db.runs[q] == if w.db.runs[q].state.Queued?
                                  && exists r: RunId :: Unfinished(w.db, r) && w.db.runs[r].session == w.db.runs[q].session
                               then w.db.runs[q].(state := Held) else w.db.runs[q]
  {
    var ids := ExecutingRuns(w.db.runs);
    ExecutingRunsAreUnfinished(w.db, w.db.runs);
    var after := RecoverAll(w, ids, attempt.now, attempt.plan).0;
    var affected := SessionsOf(w.db.runs, ids);
    RecoverAllKeepsOthers(w, ids, attempt.now, attempt.plan);
    hide RecoverAll, HoldAll, ExecutingRuns;
    HoldAllHolds(after, affected, q);
    if r: RunId :| Unfinished(w.db, r) && w.db.runs[r].session == w.db.runs[q].session {
      var k :| 0 <= k < |ids| && ids[k] == r;
      assert affected[k] == w.db.runs[q].session;
    }
    if w.db.runs[q].session in affected {
      var k :| 0 <= k < |affected| && affected[k] == w.db.runs[q].session;
      assert ids[k] in ids && Unfinished(w.db, ids[k]);
    }
  }

  /** A completion that returns has settled the Run as completed and removed its evidence. */
  lemma ReturnedCompletionIsClean(w: World, r: RunId, text: string, checkpoint: string, now: Time,
                                  staged: bool, fate: Fate, removal: Removal)
    requires CompleteRun(w, r, text, checkpoint, now, staged, fate, removal).1.Done?
    ensures var b := CompleteRun(w, r, text, checkpoint, now, staged, fate, removal).0;
            && checkpoint != "" && r !in b.disk.evidence
            && SettledAs(b, r, Completed, ResponseEntry, text, Some(checkpoint))
  {
    var proved := StageEvidence(w, r, text, checkpoint);
    var after := SettleWith(proved, r, Completed, text, Some(checkpoint), now, fate).0;
    assert r < |w.db.runs| by {
      hide Settle;
    }
    SettleWithEffect(proved, r, Completed, text, Some(checkpoint), now, fate);
    hide SettleWith, SettledAs, OnlyRun, Settle;
    SettledAsOnDatabase(after, RemoveEvidence(after, r), r, Completed, ResponseEntry, text, Some(checkpoint));
  }

  /** A turn of recovery that completes a Run and goes on has removed its evidence. */
  lemma RecoveredCompletionIsClean(w: World, r: RunId, now: Time, fate: RunFate)
    requires Settleable(w.db, r) && w.db.runs[r].state.Executing?
    requires RecoverRun(w, r, now, fate).1
    ensures var b := RecoverRun(w, r, now, fate).0;
            r < |b.db.runs| && (b.db.runs[r].state.Completed? ==> r !in b.disk.evidence)
  {
    hide Settle, OnlyRun;
    RecoverRunKeepsRows(w, r, now, fate);
    SettleWithEffect(w, r, Interrupted, COMPLETION_UNPROVED, None, now, fate.interruption);
    if fate.reading.Reads? && HasProof(w, r) {
      var proof := w.disk.evidence[r];
      SettleWithEffect(w, r, Completed, proof.text, Some(proof.checkpoint), now, fate.completion);
      var after := SettleWith(w, r, Completed, proof.text, Some(proof.checkpoint), now, fate.completion).0;
      SettleWithEffect(after, r, Interrupted, COMPLETION_UNPROVED, None, now, fate.interruption);
    }
    hide SettleWith;
  }

  // ---------------------------------------------------------------- recovery theorems

  /** No attempt swallows the proof of a Run it finds. */
  ghost predicate SafeRecoveries(w: World, attempts: seq<Attempt>)
    decreases |attempts|
  {
    attempts == [] || (Safe(w, attempts[0].plan) && SafeRecoveries(Reconcile(w, attempts[0]).0, attempts[1..]))
  }

  ghost predicate SomeFinishes(w: World, attempts: seq<Attempt>)
    decreases |attempts|
  {
    attempts != [] && (Reconcile(w, attempts[0]).1 || SomeFinishes(Reconcile(w, attempts[0]).0, attempts[1..]))
  }

  /**
   Crash-safe recovery. After any number of attempts, each stopped by a crash or a fault anywhere,
   every unfinished Run is as it was or settled as owed, and all are settled once an attempt finishes.
   */
  lemma {:induction false} RecoveriesSettleWhatIsOwed(w: World, attempts: seq<Attempt>)
    requires SessionsKnown(w.db) && SafeRecoveries(w, attempts)
    ensures RecoveredFrom(w, Recoveries(w, attempts))
    ensures SomeFinishes(w, attempts) ==>
              forall r: RunId :: Unfinished(w.db, r) ==> SettledRightly(w, Recoveries(w, attempts), r)
    decreases |attempts|
  {
    hide SettledRightly, Reconcile;
    if attempts != [] {
      var after := Reconcile(w, attempts[0]).0;
      ReconcileIsRight(w, attempts[0]);
      RecoveriesSettleWhatIsOwed(after, attempts[1..]);
      RecoveriesCompose(w, after, Recoveries(after, attempts[1..]));
    }
  }

  lemma GoingRunIsFinished(w: World, r: RunId, now: Time, fate: RunFate)
    requires r < |w.db.runs|
    ensures var (b, going) := RecoverRun(w, r, now, fate); going ==> !Unfinished(b.db, r)
  {
    hide OnlyRun, Settle;
    SettleWithEffect(w, r, Interrupted, CANCELLATION_UNPROVED, None, now, fate.interruption);
    SettleWithEffect(w, r, Interrupted, COMPLETION_UNPROVED, None, now, fate.interruption);
    if HasProof(w, r) {
      var proof := w.disk.evidence[r];
      SettleWithEffect(w, r, Completed, proof.text, Some(proof.checkpoint), now, fate.completion);
      var (after, signal) := SettleWith(w, r, Completed, proof.text, Some(proof.checkpoint), now, fate.completion);
      if r < |after.db.runs| {
        SettleWithEffect(after, r, Interrupted, COMPLETION_UNPROVED, None, now, fate.interruption);
      }
    }
    hide SettleWith;
  }

  lemma {:induction false} FinishedLoopLeavesNone(w: World, ids: seq<RunId>, now: Time, plan: RunId -> RunFate)
    requires forall k :: 0 <= k < |ids| ==> ids[k] < |w.db.runs|
    requires forall q: RunId :: Unfinished(w.db, q) ==> q in ids
    ensures RecoverAll(w, ids, now, plan).1 ==> forall q: RunId :: !Unfinished(RecoverAll(w, ids, now, plan).0.db, q)
    decreases |ids|
  {
    if ids != [] {
      var (after, going) := RecoverRun(w, ids[0], now, plan(ids[0]));
      RecoverRunKeepsRows(w, ids[0], now, plan(ids[0]));
      GoingRunIsFinished(w, ids[0], now, plan(ids[0]));
      hide RecoverRun;
      if going {
        forall q: RunId | Unfinished(after.db, q)
          ensures q in ids[1..]
        {
          assert q in ids;
        }
        FinishedLoopLeavesNone(after, ids[1..], now, plan);
      }
    }
  }

  /** A recovery that finished, run again, finds nothing to do and changes nothing. */
  lemma FinishedRecoveryIsIdempotent(w: World, first: Attempt, again: Attempt)
    requires Reconcile(w, first).1
    ensures Reconcile(Reconcile(w, first).0, again) == (Reconcile(w, first).0, true)
  {
    var ids := ExecutingRuns(w.db.runs);
    ExecutingRunsAreUnfinished(w.db, w.db.runs);
    var after := RecoverAll(w, ids, first.now, first.plan).0;
    FinishedLoopLeavesNone(w, ids, first.now, first.plan);
    var affected := SessionsOf(w.db.runs, ids);
    HoldAllHoldsOnly(after, affected);
    var b := HoldAll(after, affected);
    assert b == Reconcile(w, first).0;
    hide RecoverAll, HoldAll;
    forall q: RunId
      ensures !Unfinished(b.db, q)
    {
      assert !Unfinished(after.db, q);
    }
    ExecutingRunsAreUnfinished(b.db, b.db.runs);
    if ExecutingRuns(b.db.runs) != [] {
      assert ExecutingRuns(b.db.runs)[0] in ExecutingRuns(b.db.runs);
    }
    NothingToRecover(b, again);
  }

  lemma NothingToRecover(w: World, attempt: Attempt)
    requires ExecutingRuns(w.db.runs) == []
    ensures Reconcile(w, attempt) == (w, true)
  {
    assert SessionsOf(w.db.runs, []) == [];
  }

  lemma SettledAsSurvives(a: World, b: World, r: RunId, state: RunState, kind: EntryKind, text: string,
                          checkpoint: Option<string>)
    requires SettledAs(a, r, state, kind, text, checkpoint) && state.Terminal() && RecoveredFrom(a, b)
    ensures SettledAs(b, r, state, kind, text, checkpoint)
  {
    hide SettledRightly;
    assert !Unfinished(a.db, r);
  }

  /**
   completeRun under crashes. Whatever stops it, once a later recovery finishes the Run is completed
   with exactly its text and checkpoint if the evidence had become durable, and interrupted if not.
   */
  lemma CompletionSurvivesCrashes(w: World, r: RunId, text: string, checkpoint: string, now: Time,
                                  staged: bool, fate: Fate, removal: Removal, attempts: seq<Attempt>)
    requires SessionsKnown(w.db) && r < |w.db.runs| && w.db.runs[r].state.Executing?
    requires checkpoint != "" && r !in w.disk.evidence
    requires var after := CompleteRun(w, r, text, checkpoint, now, staged, fate, removal).0;
             SafeRecoveries(after, attempts) && SomeFinishes(after, attempts)
    ensures var end := Recoveries(CompleteRun(w, r, text, checkpoint, now, staged, fate, removal).0, attempts);
            if staged then SettledAs(end, r, Completed, ResponseEntry, text, Some(checkpoint))
            else SettledAs(end, r, Interrupted, OutcomeEntry, COMPLETION_UNPROVED, None)
  {
    var after := CompleteRun(w, r, text, checkpoint, now, staged, fate, removal).0;
    CompletionLeaves(w, r, text, checkpoint, now, staged, fate, removal);
    hide CompleteRun, RecoveredFrom, SafeRecoveries, SomeFinishes, Recoveries, SettledAs;
    RecoveriesSettleWhatIsOwed(after, attempts);
    if !Unfinished(after.db, r) {
      SettledAsSurvives(after, Recoveries(after, attempts), r, Completed, ResponseEntry, text, Some(checkpoint));
    }
  }

  /** completeRun stops either with the Run completed or with the Run executing and its proof staged. */
  lemma CompletionLeaves(w: World, r: RunId, text: string, checkpoint: string, now: Time,
                         staged: bool, fate: Fate, removal: Removal)
    requires SessionsKnown(w.db) && r < |w.db.runs| && w.db.runs[r].state.Executing?
    requires checkpoint != "" && r !in w.disk.evidence
    ensures var after := CompleteRun(w, r, text, checkpoint, now, staged, fate, removal).0;
            && SessionsKnown(after.db) && r < |after.db.runs|
            && if staged && (fate.Commits? || fate.CrashesAfter?)
               then SettledAs(after, r, Completed, ResponseEntry, text, Some(checkpoint)) && !Unfinished(after.db, r)
               else after.db.runs[r].state.Executing?
                    && (if staged then r in after.disk.evidence && after.disk.evidence[r] == Valid(text, checkpoint)
                        else r !in after.disk.evidence)
  {
    var proved := StageEvidence(w, r, text, checkpoint);
    SettleWithEffect(proved, r, Completed, text, Some(checkpoint), now, fate);
    hide Settle;
  }

  // ---------------------------------------------------------------- as histories

  /** The world after some operations at one time. */
  function Replay(w: World, ops: seq<Op>, now: Time): World {
    if ops == [] then w else Apply(Replay(w, ops[..|ops| - 1], now), ops[|ops| - 1], now)
  }

  lemma {:induction false} ReplayJoins(w: World, ops: seq<Op>, more: seq<Op>, now: Time)
    ensures Replay(w, ops + more, now) == Replay(Replay(w, ops, now), more, now)
  {
    hide Apply;
    if more == [] {
      assert ops + more == ops;
    } else {
      ReplayJoins(w, ops, more[..|more| - 1], now);
      assert (ops + more)[..|ops + more| - 1] == ops + more[..|more| - 1];
    }
  }

  lemma OneOp(w: World, op: Op, now: Time)
    ensures Replay(w, [op], now) == Apply(w, op, now)
  {
    hide Apply;
    assert [op][..0] == [];
    assert Replay(w, [], now) == w;
  }

  lemma SettleWithIsHistory(w: World, r: RunId, outcome: RunState, text: string, checkpoint: Option<string>,
                            now: Time, fate: Fate) returns (ops: seq<Op>)
    requires outcome.Terminal()
    ensures Replay(w, ops, now) == SettleWith(w, r, outcome, text, checkpoint, now, fate).0
  {
    hide Settle, Settleable, Replay;
    var op := SettleOp(r, outcome, text, checkpoint,
                       !(Settleable(w.db, r) && (fate.Commits? || fate.CrashesAfter?)));
    OneOp(w, op, now);
    ops := [op];
  }

  lemma RecoverRunIsHistory(w: World, r: RunId, now: Time, fate: RunFate) returns (ops: seq<Op>)
    requires r < |w.db.runs|
    ensures Replay(w, ops, now) == RecoverRun(w, r, now, fate).0
  {
    hide SettleWith, Replay;
    if w.db.runs[r].state.Cancelling? {
      ops := SettleWithIsHistory(w, r, Interrupted, CANCELLATION_UNPROVED, None, now, fate.interruption);
    } else if fate.reading.ReadFails? || !HasProof(w, r) {
      ops := SettleWithIsHistory(w, r, Interrupted, COMPLETION_UNPROVED, None, now, fate.interruption);
    } else {
      var proof := w.disk.evidence[r];
      var (after, signal) := SettleWith(w, r, Completed, proof.text, Some(proof.checkpoint), now, fate.completion);
      var first := SettleWithIsHistory(w, r, Completed, proof.text, Some(proof.checkpoint), now, fate.completion);
      if signal.Crashed? || (signal.Done? && fate.removal.CrashesAtRemoval?) {
        ops := first;
      } else if signal.Done? && fate.removal.Removes? {
        OneOp(after, RemoveEvidenceOp(r), now);
        ReplayJoins(w, first, [RemoveEvidenceOp(r)], now);
        ops := first + [RemoveEvidenceOp(r)];
      } else {
        var second := SettleWithIsHistory(after, r, Interrupted, COMPLETION_UNPROVED, None, now, fate.interruption);
        ReplayJoins(w, first, second, now);
        ops := first + second;
      }
    }
  }

  lemma {:induction false} RecoverAllIsHistory(w: World, ids: seq<RunId>, now: Time, plan: RunId -> RunFate)
    returns (ops: seq<Op>)
    requires forall k :: 0 <= k < |ids| ==> ids[k] < |w.db.runs|
    ensures Replay(w, ops, now) == RecoverAll(w, ids, now, plan).0
    decreases |ids|
  {
    if ids == [] {
      ops := [];
    } else {
      var (after, going) := RecoverRun(w, ids[0], now, plan(ids[0]));
      RecoverRunKeepsRows(w, ids[0], now, plan(ids[0]));
      var first := RecoverRunIsHistory(w, ids[0], now, plan(ids[0]));
      hide RecoverRun, Replay;
      if going {
        var rest := RecoverAllIsHistory(after, ids[1..], now, plan);
        ReplayJoins(w, first, rest, now);
        ops := first + rest;
      } else {
        ops := first;
      }
    }
  }

  lemma {:induction false} HoldAllIsHistory(w: World, sessions: seq<SessionId>, now: Time) returns (ops: seq<Op>)
    ensures Replay(w, ops, now) == HoldAll(w, sessions)
  {
    if sessions == [] {
      ops := [];
    } else {
      var n := |sessions| - 1;
      var before := HoldAllIsHistory(w, sessions[..n], now);
      hide HoldQueued;
      var op := HoldQueuedOp(sessions[n]);
      ops := before + [op];
      assert ops[..|ops| - 1] == before;
    }
  }

  /**
   Every attempt at recovery is a sequence of operations of a history, so what histories keep holds
   through recovery, wherever it stops.
   */
  lemma ReconcileIsHistory(w: World, attempt: Attempt) returns (ops: seq<Op>)
    ensures Replay(w, ops, attempt.now) == Reconcile(w, attempt).0
  {
    var ids := ExecutingRuns(w.db.runs);
    var (after, going) := RecoverAll(w, ids, attempt.now, attempt.plan);
    var affected := SessionsOf(w.db.runs, ids);
    var first := RecoverAllIsHistory(w, ids, attempt.now, attempt.plan);
    hide RecoverAll, ExecutingRuns, SessionsOf, HoldAll, Replay;
    if !going {
      ops := first;
    } else {
      var some := if attempt.held < |affected| then affected[..attempt.held] else affected;
      var rest := HoldAllIsHistory(after, some, attempt.now);
      ReplayJoins(w, first, rest, attempt.now);
      ops := first + rest;
    }
  }
}
