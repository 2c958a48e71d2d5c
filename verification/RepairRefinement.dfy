/**
 The stages as parts of a run: whatever IndexingStage, ValidatingStage and CompleteStage do to the job row
 and the collection is what a run of single steps does to the world, so what holds of every run holds of
 them. The upserts that land inside a validation are those of workers without a lease.
 */
module RepairRefinement {
  import opened Prelude
  import opened RepairModel
  import opened RepairStages
  import opened RepairRuns
  import opened RepairCompletion

  /** A worker at the start of the indexing stage, with the snapshot of the live revision. */
  predicate Ready(w: World, s: Snapshot, p: nat) {
    && w.worker == Some(Worker(s, Loaded)) && w.job == Job(Open, Indexing, p, PointTotal(s), s.revision)
    && w.live.revision == s.revision
  }

  /** The world after the batches from p to `to` have been upserted and committed. */
  ghost function Reached(w: World, s: Snapshot, p: nat, to: nat): World
    requires p <= to <= PointTotal(s)
  {
    var stored := w.(store := UpsertAll(w.store, Expected(s)[p..to]), job := w.job.(progress := to));
    if p < to == PointTotal(s) then stored.(job := stored.job.(stage := Validating), worker := None) else stored
  }

  lemma OneBatch(w: World, s: Snapshot, p: nat, from: nat, to: nat)
    requires Ready(w, s, p) && p <= from <= PointTotal(s) && to <= PointTotal(s) && Follows(from, to, s.batchSize)
    ensures Apply(Apply(Reached(w, s, p, from), Upsert(to)), Checkpoint) == Reached(w, s, p, to)
    ensures Apply(Reached(w, s, p, from), Upsert(to)).store == UpsertAll(w.store, Expected(s)[p..to])
  {
    UpsertTwice(w.store, Expected(s)[p..from], Expected(s)[from..to]);
    SlicesMeet(Expected(s), p, from, to);
    hide UpsertAll, Expected;
  }

  /** Rising commits are a run of upserts and checkpoints. */
  lemma {:induction false} CommitsAreARun(w: World, s: Snapshot, p: nat, commits: seq<nat>, to: nat) returns (run: seq<Step>)
    requires Ready(w, s, p) && Climbs(p, commits, to, s.batchSize) && to <= PointTotal(s)
    ensures p <= to && After(w, run) == Reached(w, s, p, to)
  {
    hide Apply, Expected, UpsertAll;
    if commits == [] {
      run := [];
      assert Expected(s)[p..p] == [] && UpsertAll(w.store, []) == w.store by { NoBatch(w.store, Expected(s), p); }
    } else {
      var front := commits[..|commits|-1];
      var from := CommitBefore(p, commits, |front|);
      ClimbsBefore(p, commits, s.batchSize);
      var before := CommitsAreARun(w, s, p, front, from);
      OneBatch(w, s, p, from, to);
      var here := Reached(w, s, p, from);
      Chain([here, Apply(here, Upsert(to)), Reached(w, s, p, to)], [Upsert(to), Checkpoint]);
      AfterJoins(w, before, [Upsert(to), Checkpoint]);
      run := before + [Upsert(to), Checkpoint];
    }
  }

  lemma NoBatch(points: Points, entries: seq<Entry>, p: nat)
    requires p <= |entries|
    ensures entries[p..p] == [] && UpsertAll(points, []) == points
  {}

  lemma ClimbsBefore(p: nat, commits: seq<nat>, batchSize: nat)
    requires commits != [] && Climbs(p, commits, commits[|commits|-1], batchSize)
    ensures var front := commits[..|commits|-1];
            var from := CommitBefore(p, commits, |front|);
            Climbs(p, front, from, batchSize) && Follows(from, commits[|commits|-1], batchSize)
  {
    var n := |commits| - 1;
    var front := commits[..n];
    SameBefore(p, commits, n, n);
    forall i | 0 <= i < n ensures Follows(CommitBefore(p, front, i), front[i], batchSize) {
      SameBefore(p, commits, n, i);
      assert Follows(CommitBefore(p, commits, i), commits[i], batchSize);
    }
    assert Follows(CommitBefore(p, commits, n), commits[n], batchSize);
    hide CommitBefore, Follows;
  }

  lemma SameBefore(p: nat, commits: seq<nat>, n: nat, i: nat)
    requires i <= n <= |commits|
    ensures CommitBefore(p, commits[..n], i) == CommitBefore(p, commits, i)
  {}

  /** Commits up to `progress`, and a last batch upserted and not committed. */
  lemma IndexedIsARun(w: World, s: Snapshot, p: nat, before: Trace, after: Trace, progress: nat, uploaded: nat)
    returns (run: seq<Step>)
    requires Ready(w, s, p) && w.store == before.points && Indexed(s, p, before, after, progress, uploaded)
    ensures After(w, run).store == after.points
    ensures if progress == uploaded then After(w, run) == Reached(w, s, p, progress)
            else After(w, run) == Reached(w, s, p, progress).(store := after.points, worker := Some(Worker(s, Upserted(uploaded))))
  {
    var commits := after.commits[|before.commits|..];
    hide UpsertAll, Climbs, Apply, Expected;
    run := CommitsAreARun(w, s, p, commits, progress);
    if progress < uploaded {
      var here := Reached(w, s, p, progress);
      LastBatch(w, s, p, progress, uploaded);
      Chain([here, Apply(here, Upsert(uploaded))], [Upsert(uploaded)]);
      AfterJoins(w, run, [Upsert(uploaded)]);
      run := run + [Upsert(uploaded)];
    }
  }

  lemma LastBatch(w: World, s: Snapshot, p: nat, progress: nat, uploaded: nat)
    requires Ready(w, s, p) && p <= progress < uploaded <= PointTotal(s) && uploaded - progress <= s.batchSize
    ensures Apply(Reached(w, s, p, progress), Upsert(uploaded))
         == Reached(w, s, p, progress).(store := UpsertAll(w.store, Expected(s)[p..uploaded]),
                                        worker := Some(Worker(s, Upserted(uploaded))))
  {
    UpsertTwice(w.store, Expected(s)[p..progress], Expected(s)[progress..uploaded]);
    SlicesMeet(Expected(s), p, progress, uploaded);
    hide UpsertAll, Expected;
  }

  /** The target has moved on before the last commit, which restarts the job. */
  lemma DriftRestarts(w: World, refreshed: Snapshot, last: Step)
    requires w.worker.Some? && w.live.revision == w.worker.value.snapshot.revision && w.job.status == Open
    requires if last == Checkpoint then w.worker.value.position.Upserted?
             else last == AdvanceIndexed && At(w, Loaded) && w.job.stage == Indexing && w.job.progress == w.job.total
    requires WellFormed(refreshed) && refreshed.revision > w.live.revision
    ensures var after := After(w, [Drift(refreshed), last]);
            after.job == Job(Open, Indexing, 0, PointTotal(refreshed), refreshed.revision)
            && after.store == w.store && after.worker.None?
  {
    var drifted := Apply(w, Drift(refreshed));
    Chain([w, drifted, Apply(drifted, last)], [Drift(refreshed), last]);
    hide After, WellFormed, Expected;
  }

  ghost predicate Mirrors(w: World, job: RebuildJob, store: QdrantCollection)
    reads job, store
  {
    w.store == store.points && w.job == Job(Open, job.stage, job.progress, job.total, job.revision)
  }

  /**
   Wherever the indexing stage stops, a run of single steps leads to the same job row and the same
   points, and drops the worker exactly when the stage has handed the job back.
   */
  lemma IndexingIsARun(w: World, s: Snapshot, refreshed: Snapshot, p: nat, before: Trace, job: RebuildJob,
                       store: QdrantCollection, outcome: Outcome, uploaded: nat)
    returns (run: seq<Step>)
    requires Ready(w, s, p) && w.store == before.points && Stops(s, refreshed, p, before, job, store, outcome, uploaded)
    requires outcome == Restarted ==> WellFormed(refreshed) && refreshed.revision > s.revision
    ensures Mirrors(After(w, run), job, store)
    ensures After(w, run).worker.Some? <==> outcome == Interrupted
  {
    match outcome
    case Advanced => run := AdvancedIsARun(w, s, refreshed, p, before, job, store, uploaded);
    case Interrupted =>
      hide UpsertAll, Climbs, Expected, After, Apply;
      run := IndexedIsARun(w, s, p, before, Now(job, store), job.progress, uploaded);
    case Restarted => run := RestartedIsARun(w, s, refreshed, p, before, job, store, uploaded);
  }

  lemma AdvancedIsARun(w: World, s: Snapshot, refreshed: Snapshot, p: nat, before: Trace, job: RebuildJob,
                       store: QdrantCollection, uploaded: nat)
    returns (run: seq<Step>)
    requires Ready(w, s, p) && w.store == before.points && Stops(s, refreshed, p, before, job, store, Advanced, uploaded)
    ensures Mirrors(After(w, run), job, store) && After(w, run).worker.None?
  {
    hide UpsertAll, Climbs, Expected, After;
    run := IndexedIsARun(w, s, p, before, Now(job, store), job.progress, uploaded);
    if p == PointTotal(s) {
      var here := After(w, run);
      Chain([here, Apply(here, AdvanceIndexed)], [AdvanceIndexed]);
      AfterJoins(w, run, [AdvanceIndexed]);
      run := run + [AdvanceIndexed];
    }
  }

  lemma RestartedIsARun(w: World, s: Snapshot, refreshed: Snapshot, p: nat, before: Trace, job: RebuildJob,
                        store: QdrantCollection, uploaded: nat)
    returns (run: seq<Step>)
    requires Ready(w, s, p) && w.store == before.points && Stops(s, refreshed, p, before, job, store, Restarted, uploaded)
    requires WellFormed(refreshed) && refreshed.revision > s.revision
    ensures Mirrors(After(w, run), job, store) && After(w, run).worker.None?
  {
    hide UpsertAll, Climbs, Expected, After, Apply;
    var commits: seq<nat>, q: nat :|
      Indexed(s, p, before, Trace(store.points, store.log, commits), q, uploaded) && (q < uploaded || p == PointTotal(s));
    run := IndexedIsARun(w, s, p, before, Trace(store.points, store.log, commits), q, uploaded);
    var last := if q < uploaded then Checkpoint else AdvanceIndexed;
    DriftRestarts(After(w, run), refreshed, last);
    AfterJoins(w, run, [Drift(refreshed), last]);
    run := run + [Drift(refreshed), last];
  }

  // ---- validation -----------------------------------------------------------------------------------------------------

  /** Everything that lands, batch by batch. */
  ghost function Waves(landings: seq<seq<seq<Entry>>>): seq<seq<Entry>> {
    if landings == [] then [] else Waves(landings[..|landings|-1]) + landings[|landings|-1]
  }

  /** The world after the batches at the front of its queue have landed. */
  ghost function Landed(w: World, batches: seq<seq<Entry>>, rest: seq<seq<Entry>>): World {
    w.(store := Land(w.store, batches), late := rest, landed := w.landed + Concat(batches))
  }

  lemma {:induction false} BatchesLand(w: World, batches: seq<seq<Entry>>, rest: seq<seq<Entry>>) returns (run: seq<Step>)
    requires w.late == batches + rest
    ensures After(w, run) == Landed(w, batches, rest)
  {
    hide Apply, Land, Concat, Landed;
    if batches == [] {
      run := [];
      NothingLanded(w, batches, rest);
    } else {
      var front, last := batches[..|batches|-1], batches[|batches|-1];
      SplitLast(batches, rest);
      run := BatchesLand(w, front, [last] + rest);
      var here := Landed(w, front, [last] + rest);
      LastLands(w, batches, rest);
      Chain([here, Landed(w, batches, rest)], [LateUpsert(0)]);
      AfterJoins(w, run, [LateUpsert(0)]);
      run := run + [LateUpsert(0)];
    }
  }

  lemma NothingLanded(w: World, batches: seq<seq<Entry>>, rest: seq<seq<Entry>>)
    requires batches == [] && w.late == batches + rest
    ensures Landed(w, batches, rest) == w
  {
    assert w.late == rest && w.landed + [] == w.landed;
  }

  lemma SplitLast<T>(s: seq<T>, rest: seq<T>)
    requires s != []
    ensures s + rest == s[..|s|-1] + ([s[|s|-1]] + rest)
  {}

  lemma LastLands(w: World, batches: seq<seq<Entry>>, rest: seq<seq<Entry>>)
    requires batches != []
    ensures var front, last := batches[..|batches|-1], batches[|batches|-1];
            Apply(Landed(w, front, [last] + rest), LateUpsert(0)) == Landed(w, batches, rest)
  {
    hide Apply, UpsertAll;
    var front, last := batches[..|batches|-1], batches[|batches|-1];
    OneLands(Landed(w, front, [last] + rest), last, rest);
    assert w.landed + Concat(front) + last == w.landed + (Concat(front) + last);
  }

  lemma OneLands(w: World, batch: seq<Entry>, rest: seq<seq<Entry>>)
    requires w.late == [batch] + rest
    ensures Apply(w, LateUpsert(0)) == w.(store := UpsertAll(w.store, batch), late := rest, landed := w.landed + batch)
  {
    hide UpsertAll;
    assert Without(w.late, 0) == rest;
  }

  /** A worker before its count, and upserts on their way that will land as these do. */
  ghost predicate BeforeCount(w: World, s: Snapshot, landings: seq<seq<seq<Entry>>>, rest: seq<seq<Entry>>) {
    w.worker == Some(Worker(s, Loaded)) && w.job.stage != Indexing && w.late == Waves(landings) + rest
  }

  /** The world after that many calls of the validation, each preceded by its landing. */
  ghost function Validated(w: World, s: Snapshot, landings: seq<seq<seq<Entry>>>, rest: seq<seq<Entry>>): World
    requires w.worker.Some?
  {
    if landings == [] then w.(late := rest)
    else
      Answered(w.(store := Moment(w.store, landings), late := rest, checked := Moment(w.store, landings[..1]),
                  landed := LandedSince(landings)),
               CheckRun(s, w.dimension, w.store, landings))
  }

  /** The calls of a validation, and what lands between them, are a run of checks and late upserts. */
  lemma {:induction false} ValidationIsARun(w: World, s: Snapshot, landings: seq<seq<seq<Entry>>>, rest: seq<seq<Entry>>)
    returns (run: seq<Step>)
    requires BeforeCount(w, s, landings, rest)
    ensures After(w, run) == Validated(w, s, landings, rest)
  {
    hide Apply, CheckStep, Land;
    if landings == [] {
      run := [];
      assert w.late == rest;
    } else {
      var front, last := landings[..|landings|-1], landings[|landings|-1];
      assert Waves(front) + last + rest == Waves(front) + (last + rest);
      run := ValidationIsARun(w, s, front, last + rest);
      var here := Validated(w, s, front, last + rest);
      var wave := BatchesLand(here, last, rest);
      var landed := Landed(here, last, rest);
      CallAnswers(w, s, landings, rest, landed);
      Chain([landed, Apply(landed, Check)], [Check]);
      AfterJoins(here, wave, [Check]);
      AfterJoins(w, run, wave + [Check]);
      run := run + (wave + [Check]);
    }
  }

  lemma CallAnswers(w: World, s: Snapshot, landings: seq<seq<seq<Entry>>>, rest: seq<seq<Entry>>, landed: World)
    requires w.worker == Some(Worker(s, Loaded)) && w.job.stage != Indexing && landings != []
    requires var front, last := landings[..|landings|-1], landings[|landings|-1];
             landed == Landed(Validated(w, s, front, last + rest), last, rest)
    ensures Apply(landed, Check) == Validated(w, s, landings, rest)
  {
    hide Land, Moment, CheckRun, CheckStep, LandedSince, Concat, Expected;
    LastCall(s, w.dimension, w.store, landings);
    var front := landings[..|landings|-1];
    if front != [] {
      NeverCountsAgain(s, w.dimension, w.store, front);
      RefusedStays(s, w.dimension, Moment(w.store, landings), CheckRun(s, w.dimension, w.store, front));
    }
  }

  lemma RefusedStays(s: Snapshot, dimension: nat, points: Points, c: Check)
    ensures c.Refused? ==> CheckStep(s, dimension, points, c) == c
  {}

  /** The first call counts; what landed before it does not matter. */
  lemma LastCall(s: Snapshot, dimension: nat, points: Points, landings: seq<seq<seq<Entry>>>)
    requires landings != []
    ensures var front, last, moment := landings[..|landings|-1], landings[|landings|-1], Moment(points, landings);
            && moment == Land(Moment(points, front), last)
            && CheckRun(s, dimension, points, landings) == CheckStep(s, dimension, moment, CheckRun(s, dimension, points, front))
            && if front == [] then
                 Moment(points, front) == points && CheckRun(s, dimension, points, front) == Counting
                 && Moment(points, landings[..1]) == moment && LandedSince(landings) == []
               else
                 front[..1] == landings[..1] && LandedSince(landings) == LandedSince(front) + Concat(last)
  {
    hide Land, CheckStep, Concat;
    var front := landings[..|landings|-1];
    if |landings| == 1 {
      assert landings[..1] == landings && front == [];
    } else {
      assert front[..1] == landings[..1];
    }
  }

  lemma NeverCountsAgain(s: Snapshot, dimension: nat, points: Points, landings: seq<seq<seq<Entry>>>)
    requires landings != []
    ensures !CheckRun(s, dimension, points, landings).Counting?
  {
    CheckAdvances(s, dimension, Moment(points, landings), CheckRun(s, dimension, points, landings[..|landings|-1]));
  }

  lemma CheckAdvances(s: Snapshot, dimension: nat, points: Points, c: Check)
    ensures !CheckStep(s, dimension, points, c).Counting?
  {
    hide BatchStored, VersionIds, Expected;
  }

  /** The job row of the world is that of the object. */
  ghost predicate HasRow(w: World, status: Status, job: RebuildJob)
    reads job
  {
    w.job == Job(status, job.stage, job.progress, job.total, job.revision)
  }

  /** A worker with this snapshot at the start of a stage, and the row that names it. */
  ghost predicate Starts(w: World, s: Snapshot, stage: Stage, progress: nat) {
    && w.worker == Some(Worker(s, Loaded)) && w.live.revision == s.revision
    && w.job == Job(Open, stage, progress, PointTotal(s), s.revision)
  }

  /** Wherever the validating stage stops, a run of single steps leads to the same points and the same job row. */
  lemma ValidatingIsARun(w: World, s: Snapshot, refreshed: Snapshot, progress: nat, job: RebuildJob, store: QdrantCollection,
                         outcome: Outcome, c: Check, landings: seq<seq<seq<Entry>>>, rest: seq<seq<Entry>>)
    returns (run: seq<Step>)
    requires Starts(w, s, Validating, progress) && w.late == Waves(landings) + rest && w.dimension == store.dimension
    requires ValidatingStops(s, refreshed, w.store, progress, job, store, outcome, c, landings)
    requires outcome == Restarted ==> WellFormed(refreshed) && refreshed.revision > s.revision
    ensures var after := After(w, run);
            && after.store == store.points && after.late == rest
            && HasRow(after, if outcome.Stopped? then Failed(outcome.failure) else Open, job)
            && (after.worker.Some? <==> outcome == Interrupted)
  {
    hide After, Apply, CheckRun, Moment, LandedSince, Waves, Expected, WellFormed;
    run := ValidationIsARun(w, s, landings, rest);
    var here := After(w, run);
    StandsWhereItStopped(w, s, landings, rest);
    match outcome
    case Advanced =>
      Advances(here, s);
      Chain([here, Apply(here, AdvanceValidated)], [AdvanceValidated]);
      AfterJoins(w, run, [AdvanceValidated]);
      run := run + [AdvanceValidated];
    case Restarted =>
      var more := RestartsOn(here, s, refreshed, AdvanceValidated);
      AfterJoins(w, run, more);
      run := run + more;
    case _ =>
  }

  /** What a validation has left besides the points. */
  lemma StandsWhereItStopped(w: World, s: Snapshot, landings: seq<seq<seq<Entry>>>, rest: seq<seq<Entry>>)
    requires w.worker == Some(Worker(s, Loaded))
    ensures var after, c := Validated(w, s, landings, rest), CheckRun(s, w.dimension, w.store, landings);
            && after.store == Moment(w.store, landings) && after.late == rest && after.live == w.live
            && (if c.Refused? then after == Stop(after, c.failure).(job := after.job) && after.job == w.job.(status := Failed(c.failure))
                else after.job == w.job && after.worker.Some? && after.worker.value.snapshot == s)
            && (c == Passed ==> At(after, VALIDATED))
  {
    hide CheckStep, Land;
  }

  lemma Advances(w: World, s: Snapshot)
    requires At(w, VALIDATED) && w.job.stage == Validating && w.worker.value.snapshot.revision == w.live.revision
    ensures Apply(w, AdvanceValidated) == w.(job := w.job.(stage := Complete, progress := w.job.total), worker := None)
  {}

  /** Another target is live before the commit that ends the stage, which restarts the job. */
  lemma RestartsOn(w: World, s: Snapshot, refreshed: Snapshot, last: Step) returns (more: seq<Step>)
    requires At(w, VALIDATED) && w.worker.value.snapshot == s && w.live.revision == s.revision && WellFormed(refreshed)
    requires (last == AdvanceValidated && w.job.stage == Validating && refreshed.revision > s.revision)
          || (last == Finalize && w.job.stage == Complete && refreshed.revision >= s.revision && refreshed != s)
    ensures After(w, more) == Restart(w.(live := refreshed, known := w.known[refreshed.revision := refreshed]))
  {
    more := [Drift(refreshed), last];
    var drifted := Apply(w, Drift(refreshed));
    Chain([w, drifted, Apply(drifted, last)], more);
    hide After, WellFormed, Expected;
  }

  /**
   Wherever the last stage stops, a run of single steps leads to the same points and the same job row; it
   finalizes the target exactly when the stage does.
   */
  lemma CompletingIsARun(w: World, s: Snapshot, live: Snapshot, refreshed: Snapshot, progress: nat, job: RebuildJob,
                         store: QdrantCollection, outcome: Outcome, c: Check, landings: seq<seq<seq<Entry>>>, rest: seq<seq<Entry>>)
    returns (run: seq<Step>)
    requires Starts(w, s, Complete, progress) && w.late == Waves(landings) + rest && w.dimension == store.dimension && WellFormed(s)
    requires CompletingStops(s, live, refreshed, w.store, progress, job, store, outcome, c, landings)
    requires outcome == Restarted ==> WellFormed(refreshed) && refreshed.revision >= s.revision && refreshed != s
    ensures var after := After(w, run);
            && after.store == store.points && after.late == rest
            && HasRow(after, if outcome.Stopped? then Failed(outcome.failure) else if outcome.Finalized? then Succeeded else Open, job)
            && (after.worker.Some? <==> outcome == Interrupted)
            && (outcome == Finalized ==> after.finalized == Some(s))
  {
    hide After, Apply, CheckRun, Moment, LandedSince, Waves, Expected, WellFormed;
    run := ValidationIsARun(w, s, landings, rest);
    var here := After(w, run);
    StandsWhereItStopped(w, s, landings, rest);
    match outcome
    case Finalized =>
      var more := FinalizesOn(here, s);
      AfterJoins(w, run, more);
      run := run + more;
    case Restarted =>
      var more := RestartsOn(here, s, refreshed, Finalize);
      AfterJoins(w, run, more);
      run := run + more;
    case _ =>
  }

  lemma FinalizesOn(w: World, s: Snapshot) returns (more: seq<Step>)
    requires At(w, VALIDATED) && w.worker.value.snapshot == s && w.live.revision == s.revision && WellFormed(s)
    requires w.job.stage == Complete && w.job.revision == s.revision && w.job.total == PointTotal(s)
    ensures var after := After(w, more);
            && after.store == w.store && after.late == w.late && after.job == w.job.(status := Succeeded)
            && after.worker.None? && after.finalized == Some(s)
  {
    more := [Drift(s), Finalize];
    var drifted := Apply(w, Drift(s));
    Chain([w, drifted, Apply(drifted, Finalize)], more);
    hide After, WellFormed, Expected;
  }
}
