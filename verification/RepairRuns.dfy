/**
 A generation repair over whole runs: a worker claims the job, runs a stage, crashes, loses its lease or
 is restarted on a changed target, while the control plane moves on. Each step is one transaction or one
 call, so anything may happen between two calls of a validation. A worker that has lost its lease, has
 crashed or has given up on a call can do no more than finish the upsert it was sending, because its next
 transaction is fenced. That late upsert is not fenced and may land at any later time.
 */
module RepairRuns {
  import opened Prelude
  import opened RepairModel
  import opened RepairStages

  datatype Status = Absent | Open | Succeeded | Failed(failure: Failure)

  datatype Job = Job(status: Status, stage: Stage, progress: nat, total: nat, revision: nat)

  /** Where the worker stands inside a stage: snapshot loaded, a batch upserted, or before a check of its validation. */
  datatype Position = Loaded | Upserted(next: nat) | Checking(check: Check)

  datatype Worker = Worker(snapshot: Snapshot, position: Position)

  /**
   `late` holds the upserts still on their way from workers without a lease. `checked` is the collection
   as the last validation counted it, `landed` what late upserts have written since.
   */
  datatype World = World(
    dimension: nat, store: Points, job: Job, live: Snapshot, worker: Option<Worker>, finalized: Option<Snapshot>,
    late: seq<seq<Entry>>, ghost checked: Points, ghost landed: seq<Entry>, ghost known: map<nat, Snapshot>)

  datatype Step =
    | Drift(target: Snapshot)
    | Reserve
    | Claim
    | Upsert(next: nat)
    | Checkpoint
    | AdvanceIndexed
    | Check
    | AdvanceValidated
    | Finalize
    | Crash
    | LoseLease(next: nat)
    | LateUpsert(i: nat)

  ghost function Begin(dimension: nat, store: Points, live: Snapshot): World {
    World(dimension, store, Job(Absent, Indexing, 0, 0, 0), live, None, None, [], store, [], map[live.revision := live])
  }

  ghost function Restart(w: World): World {
    w.(job := Job(Open, Indexing, 0, PointTotal(w.live), w.live.revision), worker := None)
  }

  ghost function Stop(w: World, failure: Failure): World {
    w.(job := w.job.(status := Failed(failure)), worker := None)
  }

  predicate At(w: World, position: Position) { w.worker.Some? && w.worker.value.position == position }

  /** The worker's validation has passed. */
  const VALIDATED := Checking(Passed)

  /** The check a worker outside the indexing stage makes next. */
  function NextCheck(position: Position): Check { if position.Checking? then position.check else Counting }

  /** The worker may send the batch that ends at `next`. */
  predicate CanUpsert(w: World, next: nat) {
    && At(w, Loaded) && w.job.stage == Indexing && w.job.progress < next <= w.job.total
    && w.job.total == PointTotal(w.worker.value.snapshot) && next - w.job.progress <= w.worker.value.snapshot.batchSize
  }

  function Batch(w: World, next: nat): seq<Entry>
    requires CanUpsert(w, next)
  {
    Expected(w.worker.value.snapshot)[w.job.progress..next]
  }

  function Without<T>(s: seq<T>, i: nat): seq<T>
    requires i < |s|
  {
    s[..i] + s[i+1..]
  }

  /** The worker goes on with its validation, or stops where it is refused. */
  ghost function Answered(w: World, c: Check): World
    requires w.worker.Some?
  {
    if c.Refused? then Stop(w, c.failure) else w.(worker := Some(w.worker.value.(position := Checking(c))))
  }

  ghost function Apply(w: World, step: Step): World {
    match step
    case Drift(s) =>
      if WellFormed(s) && s.revision >= w.live.revision then w.(live := s, known := w.known[s.revision := s]) else w
    case Reserve =>
      if w.job.status == Open then w else Restart(w).(finalized := None)
    case Claim =>
      if w.job.status != Open || w.worker.Some? then w
      else if w.job.revision != w.live.revision then Restart(w)
      else if w.job.total != PointTotal(w.live) then Stop(w, StageConflict)
      else if w.job.stage == Indexing && w.dimension != w.live.dimension then Stop(w, CollectionConflict)
      else if w.job.stage == Indexing && w.job.progress > w.job.total then Stop(w, StageConflict)
      else w.(worker := Some(Worker(w.live, Loaded)))
    case Upsert(next) =>
      if !CanUpsert(w, next) then w
      else w.(store := UpsertAll(w.store, Batch(w, next)), worker := Some(w.worker.value.(position := Upserted(next))))
    case Checkpoint =>
      if w.worker.None? || !w.worker.value.position.Upserted? then w
      else if w.live.revision != w.worker.value.snapshot.revision then Restart(w)
      else
        var next := w.worker.value.position.next;
        if next == w.job.total then w.(job := w.job.(stage := Validating, progress := next), worker := None)
        else w.(job := w.job.(progress := next), worker := Some(w.worker.value.(position := Loaded)))
    case AdvanceIndexed =>
      if !At(w, Loaded) || w.job.stage != Indexing || w.job.progress != w.job.total then w
      else if w.live.revision != w.worker.value.snapshot.revision then Restart(w)
      else w.(job := w.job.(stage := Validating), worker := None)
    case Check =>
      if w.worker.None? || w.job.stage == Indexing then w
      else
        var c := NextCheck(w.worker.value.position);
        var counted := if c.Counting? then w.(checked := w.store, landed := []) else w;
        Answered(counted, CheckStep(w.worker.value.snapshot, w.dimension, w.store, c))
    case AdvanceValidated =>
      if !At(w, VALIDATED) || w.job.stage != Validating then w
      else if w.live.revision != w.worker.value.snapshot.revision then Restart(w)
      else w.(job := w.job.(stage := Complete, progress := w.job.total), worker := None)
    case Finalize =>
      if !At(w, VALIDATED) || w.job.stage != Complete then w
      else if w.live != w.worker.value.snapshot || w.live.revision != w.job.revision || PointTotal(w.live) != w.job.total then
        Restart(w)
      else w.(job := w.job.(status := Succeeded), worker := None, finalized := Some(w.live))
    case Crash => w.(worker := None)
    case LoseLease(next) =>
      if !CanUpsert(w, next) then w else w.(worker := None, late := w.late + [Batch(w, next)])
    case LateUpsert(i) =>
      if i >= |w.late| then w
      else w.(store := UpsertAll(w.store, w.late[i]), late := Without(w.late, i), landed := w.landed + w.late[i])
  }

  ghost function After(w: World, run: seq<Step>): World {
    if run == [] then w else Apply(After(w, run[..|run|-1]), run[|run|-1])
  }

  // ---- who may work ------------------------------------------------------------------------------------------------

  /** The row of the job and the live target agree, and the collection has the target's dimension while it is being indexed. */
  predicate Fits(w: World) {
    && w.job.status == Open && w.job.revision == w.live.revision && w.job.total == PointTotal(w.live)
    && (w.job.stage == Indexing ==> w.dimension == w.live.dimension && w.job.progress <= w.job.total)
  }

  /**
   A worker starts on a job that nobody works on if and only if it fits; it works with the live target and changes no row. A job
   of another revision is restarted for the live one, and a job that does not fit otherwise fails for the total, the progress or the
   dimension.
   */
  lemma ClaimsExactly(w: World)
    requires w.worker.None?
    ensures var after := Apply(w, Claim);
            && (after.worker.Some? <==> Fits(w))
            && (Fits(w) ==> after == w.(worker := Some(Worker(w.live, Loaded))))
            && (w.job.status == Open && w.job.revision != w.live.revision ==>
                  after == w.(job := Job(Open, Indexing, 0, PointTotal(w.live), w.live.revision)))
            && (w.job.status == Open && w.job.revision == w.live.revision && !Fits(w) ==>
                  after == w.(job := w.job.(status := Failed(
                    if w.job.total == PointTotal(w.live) && w.dimension != w.live.dimension then CollectionConflict else StageConflict))))
            && (w.job.status != Open ==> after == w)
  {
    hide Expected;
  }

  // ---- exactness ---------------------------------------------------------------------------------------------------

  /** The collection is what a validation counted, plus what late upserts have written since, as far as it has been checked. */
  ghost predicate CheckedFor(s: Snapshot, dimension: nat, store: Points, checked: Points, landed: seq<Entry>, c: Check) {
    CheckedUpTo(s, dimension, checked, landed, c) && store == UpsertAll(checked, landed)
  }

  ghost predicate LateOk(w: World) { forall batch | batch in w.late :: DistinctIds(batch) }

  ghost predicate SafetyInv(w: World) {
    && WellFormed(w.live)
    && LateOk(w)
    && (w.worker.Some? ==>
          && w.job.status == Open && WellFormed(w.worker.value.snapshot)
          && (w.worker.value.position.Checking? ==>
                && w.job.stage != Indexing && !w.worker.value.position.check.Refused?
                && CheckedFor(w.worker.value.snapshot, w.dimension, w.store, w.checked, w.landed, w.worker.value.position.check))
          && (w.worker.value.position.Upserted? ==> w.job.stage == Indexing))
    && (w.job.status == Succeeded ==>
          && w.finalized.Some? && WellFormed(w.finalized.value)
          && CheckedFor(w.finalized.value, w.dimension, w.store, w.checked, w.landed, Passed)
          && w.finalized.value.revision == w.job.revision && PointTotal(w.finalized.value) == w.job.total)
  }

  lemma WithoutIsPart<T>(s: seq<T>, i: nat)
    requires i < |s|
    ensures forall x | x in Without(s, i) :: x in s
  {}

  lemma LandingKeepsCheckedFor(s: Snapshot, dimension: nat, store: Points, checked: Points, landed: seq<Entry>, batch: seq<Entry>, c: Check)
    requires CheckedFor(s, dimension, store, checked, landed, c)
    ensures CheckedFor(s, dimension, UpsertAll(store, batch), checked, landed + batch, c)
  {
    hide CheckedUpTo;
    UpsertTwice(checked, landed, batch);
    LandingKeepsChecked(s, dimension, checked, landed, batch, c);
  }

  lemma LateUpsertIsSafe(w: World, i: nat)
    requires SafetyInv(w) && i < |w.late|
    ensures SafetyInv(Apply(w, LateUpsert(i)))
  {
    hide CheckedFor, UpsertAll, WellFormed, DistinctIds, Expected;
    if w.worker.Some? && w.worker.value.position.Checking? {
      LandingKeepsCheckedFor(w.worker.value.snapshot, w.dimension, w.store, w.checked, w.landed, w.late[i], w.worker.value.position.check);
    }
    if w.job.status == Succeeded {
      LandingKeepsCheckedFor(w.finalized.value, w.dimension, w.store, w.checked, w.landed, w.late[i], Passed);
    }
    WithoutIsPart(w.late, i);
  }

  lemma LoseLeaseIsSafe(w: World, next: nat)
    requires SafetyInv(w)
    ensures SafetyInv(Apply(w, LoseLease(next)))
  {
    if CanUpsert(w, next) {
      ExpectedIdsDistinct(w.worker.value.snapshot);
      SliceDistinct(Expected(w.worker.value.snapshot), w.job.progress, next);
    }
    hide CheckedFor, UpsertAll, WellFormed, DistinctIds, Expected;
  }

  lemma SliceDistinct(entries: seq<Entry>, a: nat, b: nat)
    requires DistinctIds(entries) && a <= b <= |entries|
    ensures DistinctIds(entries[a..b])
  {
    forall i, j | 0 <= i < j < b - a ensures entries[a..b][i].id != entries[a..b][j].id {
      assert entries[a + i].id != entries[a + j].id;
    }
  }

  lemma StepIsSafe(w: World, step: Step)
    requires SafetyInv(w)
    ensures SafetyInv(Apply(w, step))
  {
    match step
    case LateUpsert(i) => if i < |w.late| { LateUpsertIsSafe(w, i); }
    case LoseLease(next) => LoseLeaseIsSafe(w, next);
    case Check => CheckIsSafe(w);
    case _ => OtherIsSafe(w, step);
  }

  lemma CheckIsSafe(w: World)
    requires SafetyInv(w)
    ensures SafetyInv(Apply(w, Check))
  {
    hide CheckedUpTo, CheckStep, UpsertAll, WellFormed, DistinctIds, Expected;
    if w.worker.Some? && w.job.stage != Indexing {
      var s, c := w.worker.value.snapshot, NextCheck(w.worker.value.position);
      if c.Counting? {
        CountBegins(s, w.dimension, w.store);
        NothingLands(w.store);
      } else {
        CheckKeepsChecked(s, w.dimension, w.checked, w.landed, c);
      }
    }
  }

  lemma NothingLands(points: Points)
    ensures UpsertAll(points, []) == points
  {}

  lemma OtherIsSafe(w: World, step: Step)
    requires SafetyInv(w) && !step.LateUpsert? && !step.LoseLease? && !step.Check?
    ensures SafetyInv(Apply(w, step))
  {
    hide CheckedFor, UpsertAll, WellFormed, DistinctIds, Expected;
  }

  lemma {:induction false} RunIsSafe(w: World, run: seq<Step>)
    requires SafetyInv(w)
    ensures SafetyInv(After(w, run))
  {
    if run != [] {
      RunIsSafe(w, run[..|run|-1]);
      StepIsSafe(After(w, run[..|run|-1]), run[|run|-1]);
    }
  }

  /** How exact a succeeded job has left its collection. */
  ghost predicate ExactWhenSucceeded(w: World, s: Snapshot) {
    && w.finalized == Some(s) && s.revision == w.job.revision
    && (Exact(w.store, Expected(s)) <==> Settled(w.landed, Expected(s)) && HoldsIds(w.checked, Expected(s)))
    && (w.landed == [] ==> Exact(w.store, Expected(s)) && |w.store| == w.job.total)
  }

  /**
   Whatever crashes, lost leases, retries and target changes came before, from any collection and even
   when content changes without a new revision: when a job has succeeded, the collection holds exactly
   the expected points of the target that was finalized if and only if every expected identity was stored
   when the last validation counted, and what late upserts have written since that count ended, under each
   identity, as an expected point. In particular it does when none has landed since the count.
   */
  lemma SucceededIsExact(dimension: nat, store: Points, live: Snapshot, run: seq<Step>)
    requires WellFormed(live)
    ensures var w := After(Begin(dimension, store, live), run);
            w.job.status == Succeeded ==> w.finalized.Some? && ExactWhenSucceeded(w, w.finalized.value)
  {
    RunIsSafe(Begin(dimension, store, live), run);
    SucceededExactness(After(Begin(dimension, store, live), run));
  }

  lemma SucceededExactness(w: World)
    requires SafetyInv(w)
    ensures w.job.status == Succeeded ==> w.finalized.Some? && ExactWhenSucceeded(w, w.finalized.value)
  {
    if w.job.status == Succeeded {
      var s := w.finalized.value;
      ExpectedIdsDistinct(s);
      PassedExactly(s, w.dimension, w.checked, w.landed);
      CountedIsExact(w.store, Expected(s));
      if w.landed == [] {
        PassedStill(s, w.dimension, w.checked);
        assert UpsertAll(w.checked, []) == w.checked;
      }
      hide CheckedUpTo, Exact, UpsertAll, Settled, HoldsIds, Expected, LateOk, WellFormed;
    }
  }

  lemma OnlyFinalizeSucceeds(w: World, step: Step)
    requires w.job.status != Succeeded && step != Finalize
    ensures Apply(w, step).job.status != Succeeded
  {
    hide WellFormed, CheckStep, Expected, CanUpsert, Batch, Without, UpsertAll;
  }

  /** The step that ends a job succeeded finalizes the target that is live, at the revision the job names. */
  lemma FinalizesTheLiveTarget(w: World, step: Step)
    requires SafetyInv(w) && w.job.status != Succeeded && Apply(w, step).job.status == Succeeded
    ensures step == Finalize && Apply(w, step).finalized == Some(w.live)
    ensures CheckedFor(w.live, w.dimension, w.store, w.checked, w.landed, Passed) && w.job.revision == w.live.revision
  {
    if step != Finalize {
      OnlyFinalizeSucceeds(w, step);
    }
    hide CheckedFor, UpsertAll, WellFormed, LateOk, CheckStep, Expected, CanUpsert, Batch, Without;
  }

  lemma SucceededStays(w: World, step: Step)
    requires SafetyInv(w) && w.job.status == Succeeded && Apply(w, step).job.status == Succeeded
    ensures Apply(w, step).finalized == w.finalized
  {
    hide CheckedFor, UpsertAll, WellFormed, LateOk, CheckStep, Expected, CanUpsert, Batch, Without;
  }

  /** A succeeded job was finalized at some moment of the run, and the target it names was live at that moment. */
  lemma {:induction false} FinalizedWasLive(dimension: nat, store: Points, live: Snapshot, run: seq<Step>)
    requires WellFormed(live)
    ensures var w := After(Begin(dimension, store, live), run);
            w.job.status == Succeeded ==>
              exists k | 0 <= k < |run| ::
                run[k] == Finalize && w.finalized == Some(After(Begin(dimension, store, live), run[..k]).live)
  {
    var w0 := Begin(dimension, store, live);
    if run != [] && After(w0, run).job.status == Succeeded {
      var n := |run| - 1;
      var front := run[..n];
      RunIsSafe(w0, front);
      hide SafetyInv, Apply;
      if After(w0, front).job.status == Succeeded {
        FinalizedWasLive(dimension, store, live, front);
        var k :| 0 <= k < n && front[k] == Finalize && After(w0, front).finalized == Some(After(w0, front[..k]).live);
        assert front[..k] == run[..k];
        SucceededStays(After(w0, front), run[n]);
        assert run[k] == Finalize && After(w0, run).finalized == Some(After(w0, run[..k]).live);
      } else {
        FinalizesTheLiveTarget(After(w0, front), run[n]);
        assert run[n] == Finalize && After(w0, run).finalized == Some(After(w0, run[..n]).live);
      }
    }
  }

  // ---- after success ----------------------------------------------------------------------------------------------

  /** No new repair is reserved. */
  predicate Quiet(more: seq<Step>) { Reserve !in more }

  ghost predicate AllLateWithin(w: World, entries: seq<Entry>) {
    forall batch | batch in w.late :: Within(batch, entries)
  }

  /** A succeeded job, an exact collection, and nothing on its way that the finalized target does not hold. */
  ghost predicate SettledFor(w: World, s: Snapshot) {
    && SafetyInv(w) && w.job.status == Succeeded && w.finalized == Some(s)
    && Exact(w.store, Expected(s)) && AllLateWithin(w, Expected(s))
  }

  lemma LateUpsertKeepsSettled(w: World, i: nat, s: Snapshot)
    requires SettledFor(w, s) && i < |w.late|
    ensures SettledFor(Apply(w, LateUpsert(i)), s)
  {
    var after, entries := Apply(w, LateUpsert(i)), Expected(s);
    LateUpsertIsSafe(w, i);
    ExpectedIdsDistinct(s);
    WithinIsSettled(w.late[i], entries);
    ExactAfterWrites(w.store, w.late[i], entries);
    hide SafetyInv, Exact, UpsertAll, Within, Flatten, Settled, DistinctIds, Expected, WellFormed;
    WithoutIsPart(w.late, i);
    assert w.late[i] in w.late;
  }

  lemma StepKeepsSettled(w: World, step: Step, s: Snapshot)
    requires SettledFor(w, s) && step != Reserve
    ensures SettledFor(Apply(w, step), s)
  {
    hide Exact, UpsertAll, Within, Flatten, DistinctIds, WellFormed, Expected;
    StepIsSafe(w, step);
    if step.LateUpsert? && step.i < |w.late| {
      LateUpsertKeepsSettled(w, step.i, s);
    }
  }

  lemma {:induction false} RunKeepsSettled(w: World, more: seq<Step>, s: Snapshot)
    requires SettledFor(w, s) && Quiet(more)
    ensures SettledFor(After(w, more), s)
  {
    if more != [] {
      var front := more[..|more|-1];
      assert forall step | step in front :: step in more;
      RunKeepsSettled(w, front, s);
      assert more[|more|-1] in more;
      StepKeepsSettled(After(w, front), more[|more|-1], s);
    }
  }

  lemma ExactHolds(points: Points, entries: seq<Entry>, e: Entry)
    requires Exact(points, entries) && Stored(points, e)
    ensures e in entries
  {
    var k :| 0 <= k < |entries| && entries[k].id == e.id;
    assert Stored(points, entries[k]);
  }

  /** A late upsert that holds an entry the target does not leaves the collection inexact. */
  lemma ForeignEntryBreaks(points: Points, batch: seq<Entry>, entries: seq<Entry>)
    requires DistinctIds(batch) && !Within(batch, entries)
    ensures !Exact(UpsertAll(points, batch), entries)
  {
    var i :| 0 <= i < |batch| && batch[i] !in entries;
    UpsertStores(points, batch);
    assert Stored(UpsertAll(points, batch), batch[i]);
    if Exact(UpsertAll(points, batch), entries) {
      ExactHolds(UpsertAll(points, batch), entries, batch[i]);
      assert false;
    }
  }

  /** Exact now and over every continuation in which no new repair is reserved. */
  ghost predicate StaysExact(w: World, entries: seq<Entry>) {
    forall more | Quiet(more) :: Exact(After(w, more).store, entries)
  }

  /**
   Once a job has succeeded its collection stays exact, whatever follows short of a new reservation, if
   and only if it is exact now and every upsert still on its way holds only entries of the finalized target.
   */
  lemma LateUpsertsDecide(dimension: nat, store: Points, live: Snapshot, run: seq<Step>)
    requires WellFormed(live)
    ensures var w := After(Begin(dimension, store, live), run);
            w.job.status == Succeeded ==>
              && w.finalized.Some?
              && (StaysExact(w, Expected(w.finalized.value)) <==>
                    Exact(w.store, Expected(w.finalized.value)) && AllLateWithin(w, Expected(w.finalized.value)))
  {
    var w := After(Begin(dimension, store, live), run);
    RunIsSafe(Begin(dimension, store, live), run);
    hide After, StaysExact, AllLateWithin, Expected;
    if w.job.status == Succeeded {
      if Exact(w.store, Expected(w.finalized.value)) {
        LateDecides(w);
      } else {
        ExactNow(w, Expected(w.finalized.value));
      }
    }
  }

  lemma ExactNow(w: World, entries: seq<Entry>)
    ensures StaysExact(w, entries) ==> Exact(w.store, entries)
  {
    hide Exact;
    assert Quiet([]) && After(w, []) == w;
  }

  lemma LateDecides(w: World)
    requires SafetyInv(w) && w.job.status == Succeeded && Exact(w.store, Expected(w.finalized.value))
    ensures AllLateWithin(w, Expected(w.finalized.value)) <==> StaysExact(w, Expected(w.finalized.value))
  {
    var s := w.finalized.value;
    var entries := Expected(s);
    if AllLateWithin(w, entries) {
      forall more | Quiet(more) ensures Exact(After(w, more).store, entries) {
        RunKeepsSettled(w, more, s);
      }
    } else {
      var batch :| batch in w.late && !Within(batch, entries);
      var i :| 0 <= i < |w.late| && w.late[i] == batch;
      ExpectedIdsDistinct(s);
      ForeignEntryBreaks(w.store, batch, entries);
      LandsAtOnce(w, i);
      hide After, Exact, UpsertAll, Expected, SafetyInv, Within;
      assert Quiet([LateUpsert(i)]) && !Exact(After(w, [LateUpsert(i)]).store, entries);
    }
  }

  lemma LandsAtOnce(w: World, i: nat)
    requires i < |w.late|
    ensures After(w, [LateUpsert(i)]).store == UpsertAll(w.store, w.late[i])
  {
    assert [LateUpsert(i)][..0] == [];
  }
}
