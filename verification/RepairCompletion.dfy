/**
 How a generation repair ends. Left alone it can succeed exactly when the collection has the target's
 dimension, can be counted and holds no foreign point. With an upsert of an older target on its way it can
 also be undone: before its validation, inside its last validation, or after it has succeeded.
 */
module RepairCompletion {
  import opened Prelude
  import opened RepairModel
  import opened RepairStages
  import opened RepairRuns
  import opened RepairProgress

  /** A run given world by world. */
  lemma {:induction false} Chain(worlds: seq<World>, run: seq<Step>)
    requires |worlds| == |run| + 1
    requires forall i | 0 <= i < |run| :: Apply(worlds[i], run[i]) == worlds[i + 1]
    ensures After(worlds[0], run) == worlds[|run|]
  {
    hide Apply;
    if run != [] {
      var front, n := run[..|run|-1], |run| - 1;
      forall i | 0 <= i < n ensures Apply(worlds[..n+1][i], front[i]) == worlds[..n+1][i + 1] {
        assert Apply(worlds[i], run[i]) == worlds[i + 1];
      }
      Chain(worlds[..n+1], front);
      assert Apply(worlds[n], run[n]) == worlds[n + 1];
    }
  }

  lemma {:induction false} AfterJoins(w: World, a: seq<Step>, b: seq<Step>)
    ensures After(w, a + b) == After(After(w, a), b)
  {
    hide Apply;
    if b == [] {
      assert a + b == a;
    } else {
      assert (a + b)[..|a + b|-1] == a + b[..|b|-1];
      AfterJoins(w, a, b[..|b|-1]);
    }
  }

  // ---- a worker left alone ------------------------------------------------------------------------------------------

  predicate IsWork(step: Step) {
    step.Claim? || step.Upsert? || step.Checkpoint? || step.AdvanceIndexed? || step.Check? || step.AdvanceValidated? || step.Finalize?
  }

  predicate Working(run: seq<Step>) { forall step | step in run :: IsWork(step) }

  ghost predicate Repairable(w: World) {
    w.dimension == w.live.dimension && Countable(w.live) && NothingForeign(w.store, w.live)
  }

  /** An open job for the live target, in a world that can be repaired. */
  ghost predicate Alone(w: World) {
    ProgressInv(w) && w.job.status == Open && w.job.revision == w.live.revision && Repairable(w)
  }

  /** What work leaves as it is. */
  predicate SameWorld(before: World, after: World) {
    after.live == before.live && after.late == before.late && after.dimension == before.dimension
  }

  lemma WorkKeepsWorld(w: World, step: Step)
    requires IsWork(step)
    ensures SameWorld(w, Apply(w, step))
  {
    hide CheckStep, Expected, UpsertAll, CanUpsert, Batch;
  }

  lemma ClaimAlone(w: World)
    requires Alone(w) && w.worker.None?
    ensures var after := Apply(w, Claim);
            Alone(after) && At(after, Loaded) && after.job == w.job && SameWorld(w, after)
  {
    StepProgresses(w, Claim);
    hide ProgressInv, Repairable, Expected;
    JobIsForTheLiveTarget(w);
  }

  lemma JobIsForTheLiveTarget(w: World)
    requires Alone(w)
    ensures w.job.total == PointTotal(w.live) && w.job.progress <= w.job.total
    ensures w.worker.Some? ==> w.worker.value.snapshot == w.live
  {
    hide SafetyInv, PrefixStored, Repairable, Expected;
  }

  lemma UpsertStaysRepairable(points: Points, s: Snapshot, from: nat, to: nat)
    requires WellFormed(s) && NothingForeign(points, s) && from <= to <= PointTotal(s)
    ensures NothingForeign(UpsertAll(points, Expected(s)[from..to]), s)
  {
    var entries := Expected(s);
    var batch := entries[from..to];
    ExpectedIdsDistinct(s);
    SliceDistinct(entries, from, to);
    UpsertStores(points, batch);
    hide Expected, UpsertAll, WellFormed;
    forall id | id in UpsertAll(points, batch) ensures id in Ids(entries) {
      if id in Ids(batch) {
        var i :| 0 <= i < |batch| && batch[i].id == id;
        assert entries[from + i].id == id;
      }
    }
  }

  lemma UpsertAlone(w: World, next: nat)
    requires Alone(w) && CanUpsert(w, next)
    ensures Alone(Apply(w, Upsert(next)))
  {
    JobIsForTheLiveTarget(w);
    assert WellFormed(w.live);
    StepProgresses(w, Upsert(next));
    UpsertStaysRepairable(w.store, w.live, w.job.progress, next);
    hide ProgressInv, NothingForeign, Expected, UpsertAll, WellFormed, Countable;
  }

  lemma CheckpointAlone(w: World)
    requires Alone(w) && w.worker.Some? && w.worker.value.position.Upserted? && w.job.stage == Indexing
    ensures var after, next := Apply(w, Checkpoint), w.worker.value.position.next;
            && Alone(after)
            && if next == w.job.total then after.job.stage == Validating && after.worker.None?
               else after.job.stage == Indexing && At(after, Loaded) && after.job.total == w.job.total && after.job.progress == next
  {
    JobIsForTheLiveTarget(w);
    StepProgresses(w, Checkpoint);
    hide ProgressInv, NothingForeign, Expected, Countable;
  }

  /** The next batch, in full or up to the end. */
  lemma BatchAlone(w: World) returns (next: nat)
    requires Alone(w) && At(w, Loaded) && w.job.stage == Indexing && w.job.progress < w.job.total
    ensures var after := Apply(Apply(w, Upsert(next)), Checkpoint);
            && Alone(after) && SameWorld(w, after)
            && if next == w.job.total then after.job.stage == Validating && after.worker.None?
               else after.job.stage == Indexing && At(after, Loaded) && after.job.total == w.job.total
                    && w.job.progress < after.job.progress <= w.job.total
  {
    JobIsForTheLiveTarget(w);
    assert WellFormed(w.live);
    next := if w.job.progress + w.live.batchSize < w.job.total then w.job.progress + w.live.batchSize else w.job.total;
    var middle := Apply(w, Upsert(next));
    UpsertAlone(w, next);
    hide Alone, UpsertAll, Expected, WellFormed;
    CheckpointAlone(middle);
    WorkKeepsWorld(w, Upsert(next));
    WorkKeepsWorld(middle, Checkpoint);
  }

  lemma {:induction false} IndexAlone(w: World) returns (run: seq<Step>)
    requires Alone(w) && At(w, Loaded) && w.job.stage == Indexing
    ensures Working(run)
    ensures var after := After(w, run); Alone(after) && SameWorld(w, after) && after.job.stage == Validating && after.worker.None?
    decreases w.job.total - w.job.progress
  {
    hide Alone, After, Apply;
    JobIsForTheLiveTarget(w);
    if w.job.progress == w.job.total {
      run := [AdvanceIndexed];
      AdvanceAlone(w);
      Chain([w, Apply(w, AdvanceIndexed)], run);
    } else {
      var next := BatchAlone(w);
      var middle := Apply(Apply(w, Upsert(next)), Checkpoint);
      Chain([w, Apply(w, Upsert(next)), middle], [Upsert(next), Checkpoint]);
      run := [Upsert(next), Checkpoint];
      if next != w.job.total {
        var rest := IndexAlone(middle);
        AfterJoins(w, run, rest);
        run := run + rest;
      }
    }
  }

  lemma AdvanceAlone(w: World)
    requires Alone(w) && At(w, Loaded) && w.job.stage == Indexing && w.job.progress == w.job.total
    ensures var after := Apply(w, AdvanceIndexed);
            Alone(after) && SameWorld(w, after) && after.job.stage == Validating && after.worker.None?
  {
    JobIsForTheLiveTarget(w);
    StepProgresses(w, AdvanceIndexed);
    hide ProgressInv, Repairable;
  }

  // ---- a validation left alone -------------------------------------------------------------------------------------

  /** No version the target names can be refused. */
  ghost predicate Sound(points: Points, s: Snapshot) {
    Countable(s) && forall i | 0 <= i < |s.targets| :: NothingForeignOf(points, s, i)
  }

  /** A counted validation whose remaining checks will pass. */
  ghost predicate CheckingOn(w: World) {
    && ProgressInv(w) && w.worker.Some? && w.worker.value.position.Checking? && w.job.stage != Indexing
    && Sound(w.store, w.worker.value.snapshot)
  }

  function Positioned(w: World, c: Check): World
    requires w.worker.Some?
  {
    w.(worker := Some(w.worker.value.(position := Checking(c))))
  }

  lemma CheckPasses(w: World)
    requires CheckingOn(w)
    ensures var next := CheckStep(w.worker.value.snapshot, w.dimension, w.store, w.worker.value.position.check);
            Apply(w, Check) == Positioned(w, next) && CheckingOn(Positioned(w, next))
  {
    CheckOutcome(w);
    CheckIsKnown(w);
    StepProgresses(w, Check);
    hide ProgressInv, CheckStep, NothingForeignOf, Countable;
  }

  /** Where a counted validation stands. */
  lemma CheckIsKnown(w: World)
    requires SafetyInv(w) && w.worker.Some? && w.worker.value.position.Checking?
    ensures var s, c := w.worker.value.snapshot, w.worker.value.position.check;
            c.Passed? || (c.Versions? && c.target < |s.targets| && TargetOk(s.targets[c.target]) && 1 <= s.batchSize)
            || (c.Batches? && c.target < |s.targets| && c.at < |s.targets[c.target].chunks| && 1 <= s.batchSize)
  {
    hide SeenUpTo, Counted, CountableUpTo, LateOk;
  }

  /** The remaining checks move nothing but the worker. */
  lemma {:induction false} RunChecks(w: World) returns (run: seq<Step>)
    requires CheckingOn(w)
    ensures Working(run) && After(w, run) == Positioned(w, Passed) && CheckingOn(After(w, run))
    decreases ChecksLeft(w.worker.value.snapshot, w.worker.value.position.check).0,
              ChecksLeft(w.worker.value.snapshot, w.worker.value.position.check).1
  {
    var s, c := w.worker.value.snapshot, w.worker.value.position.check;
    if c == Passed {
      run := [];
    } else {
      CheckPasses(w);
      CheckIsKnown(w);
      var next := CheckStep(s, w.dimension, w.store, c);
      NextCheckIsNearer(s, w.dimension, w.store, c);
      NotRefused(w);
      hide CheckingOn, Apply, CheckStep;
      var rest := RunChecks(Positioned(w, next));
      Chain([w, Positioned(w, next)], [Check]);
      AfterJoins(w, [Check], rest);
      run := [Check] + rest;
    }
  }

  lemma NotRefused(w: World)
    requires CheckingOn(w)
    ensures !CheckStep(w.worker.value.snapshot, w.dimension, w.store, w.worker.value.position.check).Refused?
  {
    CheckOutcome(w);
    CheckIsKnown(w);
    hide ProgressInv, CheckStep, NothingForeignOf;
  }

  /** Targets left, then chunks left of the current one. */
  function ChecksLeft(s: Snapshot, c: Check): (nat, nat) {
    match c
    case Versions(i) => if i < |s.targets| then (|s.targets| - i, |s.targets[i].chunks| + 1) else (0, 0)
    case Batches(i, a) =>
      if i < |s.targets| && a < |s.targets[i].chunks| then (|s.targets| - i, |s.targets[i].chunks| - a) else (0, 0)
    case _ => (0, 0)
  }

  lemma NextCheckIsNearer(s: Snapshot, dimension: nat, points: Points, c: Check)
    requires 1 <= s.batchSize
    requires (c.Versions? && c.target < |s.targets|) || (c.Batches? && c.target < |s.targets| && c.at < |s.targets[c.target].chunks|)
    ensures var before, after := ChecksLeft(s, c), ChecksLeft(s, CheckStep(s, dimension, points, c));
            after.0 < before.0 || (after.0 == before.0 && after.1 < before.1)
  {
    hide BatchStored, VersionIds;
  }

  /** From the count to the end: the collection is counted, and nothing else changes. */
  lemma ValidateAlone(w: World) returns (run: seq<Step>)
    requires Alone(w) && At(w, Loaded) && w.job.stage != Indexing
    ensures Working(run)
    ensures var after := After(w, run);
            Alone(after) && At(after, VALIDATED) && after.job == w.job && SameWorld(w, after) && after.landed == []
  {
    CountAlone(w);
    var w1 := Apply(w, Check);
    var rest := RunChecks(w1);
    Chain([w, w1], [Check]);
    AfterJoins(w, [Check], rest);
    run := [Check] + rest;
    StillAlone(w1, After(w1, rest));
    hide Alone, After, CheckingOn;
  }

  lemma StillAlone(w: World, after: World)
    requires Alone(w) && w.worker.Some? && after == Positioned(w, Passed) && ProgressInv(after)
    ensures Alone(after)
  {
    hide ProgressInv, Countable, NothingForeign;
  }

  lemma CountAlone(w: World)
    requires Alone(w) && At(w, Loaded) && w.job.stage != Indexing
    ensures var after := Apply(w, Check);
            Alone(after) && CheckingOn(after) && after.job == w.job && SameWorld(w, after) && after.landed == []
  {
    JobIsForTheLiveTarget(w);
    CheckOutcome(w);
    StepProgresses(w, Check);
    hide ProgressInv, CheckStep, Countable;
  }

  lemma AdvanceValidatedAlone(w: World)
    requires Alone(w) && At(w, VALIDATED) && w.job.stage == Validating
    ensures var after := Apply(w, AdvanceValidated);
            Alone(after) && SameWorld(w, after) && after.job.stage == Complete && after.worker.None?
  {
    JobIsForTheLiveTarget(w);
    StepProgresses(w, AdvanceValidated);
    hide ProgressInv, Repairable;
  }

  lemma FinalizeAlone(w: World)
    requires Alone(w) && At(w, VALIDATED) && w.job.stage == Complete && w.landed == []
    ensures var after := Apply(w, Finalize);
            && after.job.status == Succeeded && after.finalized == Some(w.live) && SameWorld(w, after)
            && Exact(after.store, Expected(w.live)) && SafetyInv(after)
  {
    JobIsForTheLiveTarget(w);
    StepIsSafe(w, Finalize);
    FinalizedIsExact(w);
    hide ProgressInv, Repairable, SafetyInv, Exact, Expected;
  }

  lemma FinalizedIsExact(w: World)
    requires Alone(w) && At(w, VALIDATED) && w.landed == []
    ensures Exact(w.store, Expected(w.live))
  {
    JobIsForTheLiveTarget(w);
    NothingLands(w.checked);
    PassedStill(w.live, w.dimension, w.checked);
  }

  /** Validation, and the advance to the last stage. */
  lemma ValidatingAlone(w: World) returns (run: seq<Step>)
    requires Alone(w) && At(w, Loaded) && w.job.stage == Validating
    ensures Working(run)
    ensures var after := After(w, run); Alone(after) && SameWorld(w, after) && after.job.stage == Complete && after.worker.None?
  {
    hide Alone, Apply, After;
    var checks := ValidateAlone(w);
    var w1 := After(w, checks);
    AdvanceValidatedAlone(w1);
    Chain([w1, Apply(w1, AdvanceValidated)], [AdvanceValidated]);
    AfterJoins(w, checks, [AdvanceValidated]);
    run := checks + [AdvanceValidated];
  }

  /** The last validation, and the commit. */
  lemma CompleteAlone(w: World) returns (run: seq<Step>)
    requires Alone(w) && At(w, Loaded) && w.job.stage == Complete
    ensures Working(run)
    ensures Finishes(w, After(w, run))
  {
    hide Alone, Apply, After;
    var checks := ValidateAlone(w);
    var w1 := After(w, checks);
    FinalizeAlone(w1);
    Chain([w1, Apply(w1, Finalize)], [Finalize]);
    AfterJoins(w, checks, [Finalize]);
    run := checks + [Finalize];
  }

  /** The job has succeeded on the live target, whose points the collection holds exactly. */
  ghost predicate Finishes(before: World, after: World) {
    && after.job.status == Succeeded && after.finalized == Some(before.live) && SameWorld(before, after)
    && Exact(after.store, Expected(before.live)) && SafetyInv(after)
  }

  /** A step in front of a run that finishes. */
  lemma Prepend(w: World, a: seq<Step>, b: seq<Step>)
    requires Working(a) && Working(b) && SameWorld(w, After(w, a)) && Finishes(After(w, a), After(After(w, a), b))
    ensures Working(a + b) && Finishes(w, After(w, a + b))
  {
    AfterJoins(w, a, b);
    hide After, SafetyInv, Exact;
  }

  lemma ClaimRun(w: World)
    requires Alone(w) && w.worker.None?
    ensures var after := After(w, [Claim]);
            Working([Claim]) && Alone(after) && At(after, Loaded) && after.job == w.job && SameWorld(w, after)
  {
    ClaimAlone(w);
    Chain([w, Apply(w, Claim)], [Claim]);
  }

  lemma StageAlone(w: World) returns (run: seq<Step>)
    requires Alone(w) && w.worker.None? && w.job.stage != Indexing
    ensures Working(run) && Finishes(w, After(w, run))
  {
    hide Alone, After, Apply, Finishes;
    ClaimRun(w);
    var w1 := After(w, [Claim]);
    if w.job.stage == Validating {
      var validating := ValidatingAlone(w1);
      var w2 := After(w1, validating);
      ClaimRun(w2);
      var completing := CompleteAlone(After(w2, [Claim]));
      Prepend(w2, [Claim], completing);
      Prepend(w1, validating, [Claim] + completing);
      Prepend(w, [Claim], validating + ([Claim] + completing));
      run := [Claim] + (validating + ([Claim] + completing));
    } else {
      var completing := CompleteAlone(w1);
      Prepend(w, [Claim], completing);
      run := [Claim] + completing;
    }
  }

  lemma SucceedsAlone(w: World) returns (run: seq<Step>)
    requires Alone(w) && w.worker.None?
    ensures Working(run) && Finishes(w, After(w, run))
  {
    if w.job.stage == Indexing {
      hide Alone, After, Apply, Finishes;
      ClaimRun(w);
      var w1 := After(w, [Claim]);
      var indexing := IndexAlone(w1);
      var w2 := After(w1, indexing);
      var rest := StageAlone(w2);
      Prepend(w1, indexing, rest);
      Prepend(w, [Claim], indexing + rest);
      run := [Claim] + (indexing + rest);
    } else {
      run := StageAlone(w);
    }
  }

  // ---- no other world succeeds --------------------------------------------------------------------------------------

  /** Work cannot succeed from here. */
  ghost predicate Hopeless(w: World) {
    && SafetyInv(w) && !Repairable(w) && w.job.status != Succeeded
    && (w.worker.Some? ==> w.worker.value.snapshot == w.live && (w.worker.value.position.Checking? ==> w.landed == []))
  }

  /** What passes with nothing landed meanwhile can be repaired. */
  lemma NeverValidated(w: World)
    requires Hopeless(w)
    ensures !At(w, VALIDATED)
  {
    if At(w, VALIDATED) {
      NothingLands(w.checked);
      PassedStill(w.live, w.dimension, w.checked);
      StoredIsExact(w.store, w.live);
      assert false;
    }
  }

  lemma StaysHopeless(w: World, step: Step)
    requires Hopeless(w) && IsWork(step)
    ensures Hopeless(Apply(w, step))
  {
    StepIsSafe(w, step);
    if step.Upsert? {
      if CanUpsert(w, step.next) { UpsertKeepsForeign(w, step.next); }
    } else {
      NeverValidated(w);
      OtherStaysHopeless(w, step);
    }
  }

  lemma OtherStaysHopeless(w: World, step: Step)
    requires Hopeless(w) && IsWork(step) && !step.Upsert? && !At(w, VALIDATED) && SafetyInv(Apply(w, step))
    ensures Hopeless(Apply(w, step))
  {
    hide SafetyInv, CheckStep, WellFormed, Countable, NothingForeign, Expected;
  }

  lemma {:induction false} UpsertKeepsIds(points: Points, batch: seq<Entry>)
    ensures points.Keys <= UpsertAll(points, batch).Keys
  {
    if batch != [] {
      UpsertKeepsIds(points, batch[..|batch|-1]);
    }
  }

  lemma UpsertKeepsForeign(w: World, next: nat)
    requires Hopeless(w) && CanUpsert(w, next) && SafetyInv(Apply(w, Upsert(next)))
    ensures Hopeless(Apply(w, Upsert(next)))
  {
    hide SafetyInv;
    var after := Apply(w, Upsert(next));
    UpsertKeepsIds(w.store, Batch(w, next));
    assert forall id | id in w.store :: id in after.store;
    hide UpsertAll, Expected, WellFormed, Countable;
    assert NothingForeign(after.store, w.live) ==> NothingForeign(w.store, w.live);
  }

  lemma {:induction false} RunStaysHopeless(w: World, run: seq<Step>)
    requires Hopeless(w) && Working(run)
    ensures Hopeless(After(w, run))
  {
    hide Hopeless, Apply;
    if run != [] {
      var front := run[..|run|-1];
      assert forall step | step in front :: step in run;
      RunStaysHopeless(w, front);
      assert run[|run|-1] in run;
      StaysHopeless(After(w, front), run[|run|-1]);
    }
  }

  /**
   Whatever happened before: an open job whose target is live, with no worker on it, can be worked to
   success exactly when the collection has the target's dimension, can be counted and holds no point
   under an identity the target does not expect.
   */
  lemma RepairCanSucceed(dimension: nat, store: Points, live: Snapshot, run: seq<Step>)
    requires WellFormed(live) && RunOrderly(Begin(dimension, store, live), run)
    ensures var w := After(Begin(dimension, store, live), run);
            w.job.status == Open && w.worker.None? && w.job.revision == w.live.revision ==>
              (Repairable(w) <==> exists more | Working(more) :: After(w, more).job.status == Succeeded)
  {
    BeginsInOrder(dimension, store, live);
    RunProgresses(Begin(dimension, store, live), run);
    var w := After(Begin(dimension, store, live), run);
    hide After;
    if w.job.status == Open && w.worker.None? && w.job.revision == w.live.revision {
      CanSucceed(w);
    }
  }

  lemma CanSucceed(w: World)
    requires ProgressInv(w) && w.job.status == Open && w.worker.None? && w.job.revision == w.live.revision
    ensures Repairable(w) <==> exists more | Working(more) :: After(w, more).job.status == Succeeded
  {
    assert WellFormed(w.live);
    hide ProgressInv, After, Repairable;
    if Repairable(w) {
      var more := SucceedsAlone(w);
      assert Working(more) && After(w, more).job.status == Succeeded;
    } else {
      forall more | Working(more) ensures After(w, more).job.status != Succeeded {
        RunStaysHopeless(w, more);
      }
    }
  }

  // ---- a late upsert that undoes a repair -------------------------------------------------------------------------------

  /** An upsert on its way with a point the live target does not hold: the repair succeeds, and then the upsert lands. */
  lemma LateUpsertUndoes(w: World, i: nat) returns (run: seq<Step>)
    requires Alone(w) && w.worker.None? && i < |w.late| && !Within(w.late[i], Expected(w.live))
    ensures var after := After(w, run);
            after.job.status == Succeeded && after.finalized == Some(w.live) && Exact(after.store, Expected(w.live))
    ensures var after := After(w, run + [LateUpsert(i)]);
            after.job.status == Succeeded && !Exact(after.store, Expected(w.live))
  {
    run := SucceedsAlone(w);
    var after := After(w, run);
    assert w.late[i] in after.late && LateOk(after);
    ForeignEntryBreaks(after.store, w.late[i], Expected(w.live));
    AfterJoins(w, run, [LateUpsert(i)]);
    Chain([after, Apply(after, LateUpsert(i))], [LateUpsert(i)]);
    hide After, Exact, Expected, SafetyInv, Alone, Within, UpsertAll;
  }

  // ---- upserts that land earlier ---------------------------------------------------------------------------------------

  /** Work up to the last stage. */
  lemma ReachComplete(w: World) returns (run: seq<Step>)
    requires Alone(w) && w.worker.None?
    ensures Working(run)
    ensures var after := After(w, run); Alone(after) && SameWorld(w, after) && after.job.stage == Complete && after.worker.None?
  {
    hide Alone, After, Apply;
    run := [];
    NoStep(w);
    if w.job.stage == Indexing {
      run := ReachValidating(w);
    }
    var w1 := After(w, run);
    if w1.job.stage == Validating {
      ClaimRun(w1);
      var validating := ValidatingAlone(After(w1, [Claim]));
      AfterJoins(w1, [Claim], validating);
      AfterJoins(w, run, [Claim] + validating);
      run := run + ([Claim] + validating);
    }
  }

  lemma NoStep(w: World)
    ensures After(w, []) == w
  {}

  /** Work up to the end of the indexing stage. */
  lemma ReachValidating(w: World) returns (run: seq<Step>)
    requires Alone(w) && w.worker.None? && w.job.stage == Indexing
    ensures Working(run)
    ensures var after := After(w, run); Alone(after) && SameWorld(w, after) && after.job.stage == Validating && after.worker.None?
  {
    hide Alone, After, Apply;
    ClaimRun(w);
    var indexing := IndexAlone(After(w, [Claim]));
    AfterJoins(w, [Claim], indexing);
    run := [Claim] + indexing;
  }

  /** Every entry is expected, or foreign in identity and version. */
  ghost predicate Unnoticed(batch: seq<Entry>, s: Snapshot) {
    forall e | e in batch ::
      e in Expected(s) || (e.id !in Ids(Expected(s)) && forall i | 0 <= i < |s.targets| :: e.point.payload.version != s.targets[i].version)
  }

  lemma UnnoticedStaysSound(points: Points, batch: seq<Entry>, s: Snapshot)
    requires DistinctIds(batch) && Unnoticed(batch, s) && Sound(points, s)
    ensures Sound(UpsertAll(points, batch), s)
  {
    var after := UpsertAll(points, batch);
    UpsertStores(points, batch);
    forall i | 0 <= i < |s.targets| ensures NothingForeignOf(after, s, i) {
      forall id | id in after && after[id].payload.version == s.targets[i].version ensures id in Ids(Expected(s)) {
        if id in Ids(batch) {
          var k :| 0 <= k < |batch| && batch[k].id == id;
          assert Stored(after, batch[k]) && batch[k] in batch;
          if batch[k] in Expected(s) {
            var q :| 0 <= q < PointTotal(s) && Expected(s)[q] == batch[k];
          }
        } else {
          assert NothingForeignOf(points, s, i);
        }
      }
    }
  }

  lemma UnnoticedAgrees(batch: seq<Entry>, s: Snapshot, n: nat)
    requires Unnoticed(batch, s) && WellFormed(s)
    ensures Agreeable(batch, Expected(s), n)
  {
    ExpectedIdsDistinct(s);
    hide WellFormed, Expected;
    forall i, j | 0 <= i < |batch| && 0 <= j < n && j < PointTotal(s) && batch[i].id == Expected(s)[j].id
      ensures batch[i] == Expected(s)[j]
    {
      assert batch[i] in batch && Expected(s)[j].id in Ids(Expected(s));
      var q :| 0 <= q < PointTotal(s) && Expected(s)[q] == batch[i];
      assert q == j;
    }
  }

  /** The upsert lands after the count: the validation goes on to pass. */
  lemma LandsAfterCount(w: World, i: nat)
    requires CheckingOn(w) && i < |w.late| && Unnoticed(w.late[i], w.worker.value.snapshot)
    ensures CheckingOn(Apply(w, LateUpsert(i)))
  {
    var s := w.worker.value.snapshot;
    assert w.late[i] in w.late && WellFormed(s) && LateOk(w);
    UnnoticedStaysSound(w.store, w.late[i], s);
    UnnoticedAgrees(w.late[i], s, Promised(w));
    LandsInOrder(w, i);
    StepProgresses(w, LateUpsert(i));
    hide ProgressInv, Sound, Unnoticed, UpsertAll;
  }

  lemma LandsInOrder(w: World, i: nat)
    requires ProgressInv(w) && w.worker.Some? && i < |w.late|
    requires Agreeable(w.late[i], Expected(w.worker.value.snapshot), Promised(w))
    ensures Orderly(w, LateUpsert(i))
  {
    hide SafetyInv, Agreeable, PrefixStored, Expected;
  }

  /**
   An upsert on its way with a point the live target does not hold lands inside the last validation, after
   the count: the validation passes, the job succeeds, and the collection is not exact.
   */
  lemma ForeignUpsertSlipsIn(w: World, i: nat) returns (before: seq<Step>, behind: seq<Step>)
    requires Alone(w) && w.worker.None? && i < |w.late| && !Within(w.late[i], Expected(w.live)) && Unnoticed(w.late[i], w.live)
    ensures Working(before) && Working(behind)
    ensures var after := After(w, before + [LateUpsert(i)] + behind);
            && after.job.status == Succeeded && after.finalized == Some(w.live) && after.landed == w.late[i]
            && !Exact(after.store, Expected(w.live))
  {
    before := CountComplete(w);
    var w3 := After(w, before);
    hide Alone, CheckingOn, Apply, After, Exact, Within, Unnoticed, Expected;
    behind := PassesUnnoticed(w3, i);
    AfterJoins(w, before, [LateUpsert(i)] + behind);
    assert before + ([LateUpsert(i)] + behind) == before + [LateUpsert(i)] + behind;
  }

  /** Work up to the count of the last validation. */
  lemma CountComplete(w: World) returns (run: seq<Step>)
    requires Alone(w) && w.worker.None?
    ensures Working(run)
    ensures var after := After(w, run);
            && Alone(after) && CheckingOn(after) && SameWorld(w, after) && after.job.stage == Complete && after.landed == []
  {
    hide Alone, CheckingOn, Apply, After, Working, IsWork;
    var complete := ReachComplete(w);
    CountClaimed(After(w, complete));
    AfterJoins(w, complete, [Claim, Check]);
    run := complete + [Claim, Check];
    WorkJoins(complete, [Claim, Check]);
  }

  lemma CountClaimed(w: World)
    requires Alone(w) && w.worker.None? && w.job.stage == Complete
    ensures Working([Claim, Check])
    ensures var after := After(w, [Claim, Check]);
            && Alone(after) && CheckingOn(after) && SameWorld(w, after) && after.job.stage == Complete && after.landed == []
  {
    hide Alone, CheckingOn, Apply, After;
    ClaimAlone(w);
    var claimed := Apply(w, Claim);
    CountAlone(claimed);
    Chain([w, claimed, Apply(claimed, Check)], [Claim, Check]);
  }

  lemma WorkJoins(a: seq<Step>, b: seq<Step>)
    requires Working(a) && Working(b)
    ensures Working(a + b)
  {}

  lemma PassesUnnoticed(w: World, i: nat) returns (behind: seq<Step>)
    requires Alone(w) && CheckingOn(w) && w.job.stage == Complete && w.landed == []
    requires i < |w.late| && !Within(w.late[i], Expected(w.live)) && Unnoticed(w.late[i], w.live)
    ensures Working(behind)
    ensures var after := After(w, [LateUpsert(i)] + behind);
            && after.job.status == Succeeded && after.finalized == Some(w.live) && after.landed == w.late[i]
            && !Exact(after.store, Expected(w.live))
  {
    hide Alone, Apply, After, Exact, Within, Unnoticed, Expected, ProgressInv, Sound, Working, IsWork;
    JobIsForTheLiveTarget(w);
    LandsAfterCount(w, i);
    LandedInside(w, i);
    IsOpen(w);
    var w4 := Apply(w, LateUpsert(i));
    var checks := RunChecks(w4);
    var w5 := After(w4, checks);
    FinalizeAfterAll(w4, w5);
    Chain([w, w4], [LateUpsert(i)]);
    Chain([w5, Apply(w5, Finalize)], [Finalize]);
    AfterJoins(w4, checks, [Finalize]);
    assert Working([Finalize]) by { OneStepWorks(Finalize); }
    WorkJoins(checks, [Finalize]);
    behind := checks + [Finalize];
    AfterJoins(w, [LateUpsert(i)], behind);
  }

  lemma OneStepWorks(step: Step)
    requires IsWork(step)
    ensures Working([step])
  {}

  lemma IsOpen(w: World)
    requires Alone(w)
    ensures w.job.status == Open && w.job.revision == w.live.revision
  {}

  lemma LandedInside(w: World, i: nat)
    requires Alone(w) && i < |w.late| && w.landed == [] && !Within(w.late[i], Expected(w.live))
    ensures var after := Apply(w, LateUpsert(i));
            && after.job == w.job && after.live == w.live && after.landed == w.late[i] && after.worker == w.worker
            && !Exact(after.store, Expected(w.live))
  {
    assert w.late[i] in w.late && LateOk(w);
    ForeignEntryBreaks(w.store, w.late[i], Expected(w.live));
  }

  /** The finalizing commit looks at the control plane alone. */
  lemma FinalizeAfterAll(w: World, validated: World)
    requires w.worker.Some? && w.worker.value.snapshot == w.live && w.job.status == Open && w.job.stage == Complete
    requires w.job.revision == w.live.revision && w.job.total == PointTotal(w.live) && validated == Positioned(w, Passed)
    ensures var after := Apply(validated, Finalize);
            && after.job.status == Succeeded && after.finalized == Some(w.live) && after.landed == w.landed && after.store == w.store
  {
    hide Expected;
  }

  /**
   An upsert on its way that would overwrite a promised point lands after the indexing stage: the committed
   progress is no longer honest.
   */
  lemma StaleUpsertUndoesProgress(w: World, i: nat) returns (run: seq<Step>)
    requires Alone(w) && w.worker.None? && w.job.stage == Indexing && i < |w.late|
    requires !Agreeable(w.late[i], Expected(w.live), PointTotal(w.live))
    ensures Working(run)
    ensures var after := After(w, run + [LateUpsert(i)]);
            && after.job.status == Open && after.job.stage == Validating && after.job.progress == PointTotal(w.live)
            && !AllStored(after.store, Expected(w.live))
  {
    run := ReachValidating(w);
    var w1 := After(w, run);
    JobIsForTheLiveTarget(w1);
    ProgressUndone(w1, i);
    hide Alone, After, Apply, Expected, Agreeable, AllStored;
    Chain([w1, Apply(w1, LateUpsert(i))], [LateUpsert(i)]);
    AfterJoins(w, run, [LateUpsert(i)]);
  }

  lemma ProgressUndone(w: World, i: nat)
    requires Alone(w) && w.worker.None? && w.job.stage == Validating && i < |w.late|
    requires !Agreeable(w.late[i], Expected(w.live), PointTotal(w.live))
    ensures var after := Apply(w, LateUpsert(i));
            && after.job == w.job && after.job.progress == PointTotal(w.live)
            && !AllStored(after.store, Expected(w.live))
  {
    var entries := Expected(w.live);
    JobIsForTheLiveTarget(w);
    assert w.late[i] in w.late && LateOk(w) && Promised(w) == PointTotal(w.live);
    AgreeableDecides(w.store, w.late[i], entries, PointTotal(w.live));
    assert entries[..PointTotal(w.live)] == entries;
  }
}
