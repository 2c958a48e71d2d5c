/**
 Progress of a generation repair, when every change of content brings a new revision and late upserts
 agree with what has been committed: the committed progress is honest, a validation is refused for few
 reasons, and a repair that has succeeded is exact but for what landed since its last count.
 */
module RepairProgress {
  import opened Prelude
  import opened RepairModel
  import opened RepairStages
  import opened RepairRuns

  // ---- what is promised ----------------------------------------------------------------------------------------------

  /** The target the job was reserved or restarted for. */
  ghost function JobTarget(w: World): Snapshot
    requires w.job.revision in w.known
  {
    w.known[w.job.revision]
  }

  /** How many points of the target are claimed to be stored: those committed, and a batch just upserted. */
  function Promised(w: World): nat {
    if w.worker.Some? && w.worker.value.position.Upserted? then w.worker.value.position.next else w.job.progress
  }

  ghost predicate PrefixStored(points: Points, entries: seq<Entry>, n: nat) {
    n <= |entries| && AllStored(points, entries[..n])
  }

  /** The batch writes nothing under the identity of one of the first n entries but that entry. */
  predicate Agreeable(batch: seq<Entry>, entries: seq<Entry>, n: nat) {
    forall i, j | 0 <= i < |batch| && 0 <= j < n && j < |entries| && batch[i].id == entries[j].id :: batch[i] == entries[j]
  }

  /** Changes of content raise the revision, and late upserts do not overwrite what is promised with something else. */
  ghost predicate Orderly(w: World, step: Step) {
    match step
    case Drift(s) => s.revision > w.live.revision
    case LateUpsert(i) =>
      i < |w.late| && w.job.status == Open && w.job.revision in w.known ==>
        Agreeable(w.late[i], Expected(JobTarget(w)), Promised(w))
    case _ => true
  }

  ghost predicate RunOrderly(w: World, run: seq<Step>) {
    forall i | 0 <= i < |run| :: Orderly(After(w, run[..i]), run[i])
  }

  /** Every revision up to the live one stands for one target. */
  ghost predicate KnownInv(live: Snapshot, known: map<nat, Snapshot>) {
    && live.revision in known && known[live.revision] == live
    && forall r | r in known :: r <= live.revision && WellFormed(known[r])
  }

  ghost predicate JobInv(w: World) {
    && (w.job.status == Open ==>
          && w.job.revision in w.known
          && w.job.total == PointTotal(JobTarget(w)) && w.job.progress <= w.job.total
          && (w.job.stage != Indexing ==> w.job.progress == w.job.total)
          && PrefixStored(w.store, Expected(JobTarget(w)), Promised(w)))
    && (w.worker.Some? ==>
          && w.job.status == Open && w.worker.value.snapshot == JobTarget(w)
          && (w.worker.value.position.Upserted? ==> w.job.progress < w.worker.value.position.next)
          && (w.worker.value.position.Checking? ==> AllStored(w.checked, Expected(w.worker.value.snapshot))))
    && (w.job.status == Succeeded ==> w.finalized.Some? && AllStored(w.checked, Expected(w.finalized.value)))
    && w.job.status != Failed(StageConflict)
  }

  ghost predicate ProgressInv(w: World) { SafetyInv(w) && KnownInv(w.live, w.known) && JobInv(w) }

  // ---- late upserts and the prefix ---------------------------------------------------------------------------------------

  /** A late upsert leaves the stored prefix stored exactly when it agrees with it. */
  lemma AgreeableDecides(points: Points, batch: seq<Entry>, entries: seq<Entry>, n: nat)
    requires DistinctIds(batch) && PrefixStored(points, entries, n)
    ensures PrefixStored(UpsertAll(points, batch), entries, n) <==> Agreeable(batch, entries, n)
  {
    var after := UpsertAll(points, batch);
    UpsertStores(points, batch);
    if Agreeable(batch, entries, n) {
      forall j | 0 <= j < n ensures Stored(after, entries[..n][j]) {
        assert Stored(points, entries[..n][j]) && entries[..n][j] == entries[j];
        if entries[j].id in Ids(batch) {
          var i :| 0 <= i < |batch| && batch[i].id == entries[j].id;
          assert Stored(after, batch[i]) && batch[i] == entries[j];
        }
      }
    }
    if PrefixStored(after, entries, n) {
      forall i, j | 0 <= i < |batch| && 0 <= j < n && batch[i].id == entries[j].id ensures batch[i] == entries[j] {
        assert Stored(after, entries[..n][j]) && entries[..n][j] == entries[j] && Stored(after, batch[i]);
      }
    }
  }

  lemma ShorterPrefix(points: Points, entries: seq<Entry>, n: nat, m: nat)
    requires PrefixStored(points, entries, n) && m <= n
    ensures PrefixStored(points, entries, m)
  {
    forall i | 0 <= i < m ensures Stored(points, entries[..m][i]) {
      assert entries[..n][i] == entries[..m][i];
    }
  }

  // ---- every step ----------------------------------------------------------------------------------------------------

  lemma UpsertProgresses(w: World, next: nat)
    requires ProgressInv(w) && CanUpsert(w, next)
    ensures JobInv(Apply(w, Upsert(next)))
  {
    var entries := Expected(JobTarget(w));
    ExpectedIdsDistinct(JobTarget(w));
    UpsertExtendsPrefix(w.store, entries, w.job.progress, next);
    hide AllStored, UpsertAll, WellFormed, Expected, SafetyInv, DistinctIds;
  }

  lemma CheckpointProgresses(w: World)
    requires ProgressInv(w)
    ensures JobInv(Apply(w, Checkpoint))
  {
    RestartPromisesNothing(w);
    hide PrefixStored, AllStored, WellFormed, Expected, UpsertAll;
  }

  lemma RestartPromisesNothing(w: World)
    requires KnownInv(w.live, w.known)
    ensures JobInv(Restart(w))
  {
    assert Expected(w.live)[..0] == [];
  }

  lemma LoseLeaseProgresses(w: World, next: nat)
    requires ProgressInv(w)
    ensures JobInv(Apply(w, LoseLease(next)))
  {
    hide PrefixStored, AllStored, WellFormed, Expected, UpsertAll, SafetyInv;
  }

  lemma CrashProgresses(w: World)
    requires ProgressInv(w)
    ensures JobInv(Apply(w, Crash))
  {
    if w.worker.Some? && w.job.status == Open {
      ShorterPrefix(w.store, Expected(JobTarget(w)), Promised(w), w.job.progress);
    }
    hide PrefixStored, AllStored, WellFormed, Expected, UpsertAll, SafetyInv;
  }

  lemma LateUpsertProgresses(w: World, i: nat)
    requires ProgressInv(w) && i < |w.late| && Orderly(w, LateUpsert(i))
    ensures JobInv(Apply(w, LateUpsert(i)))
  {
    assert w.late[i] in w.late;
    if w.job.status == Open {
      AgreeableDecides(w.store, w.late[i], Expected(JobTarget(w)), Promised(w));
    }
    hide PrefixStored, AllStored, WellFormed, Expected, UpsertAll, SafetyInv, Agreeable;
  }

  lemma ClaimProgresses(w: World)
    requires ProgressInv(w)
    ensures JobInv(Apply(w, Claim))
  {
    RestartPromisesNothing(w);
    hide PrefixStored, AllStored, WellFormed, Expected, UpsertAll, SafetyInv;
  }

  lemma ReserveProgresses(w: World)
    requires ProgressInv(w)
    ensures JobInv(Apply(w, Reserve))
  {
    assert Expected(w.live)[..0] == [];
    hide AllStored, WellFormed, Expected, UpsertAll, SafetyInv;
  }

  lemma DriftProgresses(w: World, s: Snapshot)
    requires ProgressInv(w) && s.revision > w.live.revision
    ensures JobInv(Apply(w, Drift(s))) && KnownInv(Apply(w, Drift(s)).live, Apply(w, Drift(s)).known)
  {
    hide PrefixStored, AllStored, WellFormed, Expected, UpsertAll, SafetyInv;
  }

  /** A check counts what is promised: everything. */
  lemma CheckProgresses(w: World)
    requires ProgressInv(w)
    ensures JobInv(Apply(w, Check))
  {
    if w.worker.Some? && w.job.stage != Indexing {
      EverythingPromised(w);
    }
    hide PrefixStored, AllStored, WellFormed, Expected, UpsertAll, CheckStep, SafetyInv;
  }

  /** Outside the indexing stage every expected point is stored. */
  lemma EverythingPromised(w: World)
    requires SafetyInv(w) && JobInv(w) && w.worker.Some? && w.job.stage != Indexing
    ensures AllStored(w.store, Expected(w.worker.value.snapshot))
  {
    var entries := Expected(w.worker.value.snapshot);
    assert Promised(w) == |entries| && entries[..|entries|] == entries;
  }

  /** The steps of a worker that store nothing and leave the progress as it is, or restart the job. */
  lemma OtherProgresses(w: World, step: Step)
    requires ProgressInv(w)
    requires step.AdvanceIndexed? || step.AdvanceValidated? || step.Finalize?
    ensures JobInv(Apply(w, step))
  {
    RestartPromisesNothing(w);
    hide CheckedFor, PrefixStored, AllStored, WellFormed, Expected, UpsertAll;
  }

  lemma KnownStays(w: World, step: Step)
    requires !step.Drift?
    ensures Apply(w, step).live == w.live && Apply(w, step).known == w.known
  {
    if step.Check? || step.Upsert? || step.LoseLease? || step.LateUpsert? || step.Crash? || step.Reserve? {
      WritesKeepKnown(w, step);
    } else {
      CommitsKeepKnown(w, step);
    }
  }

  lemma WritesKeepKnown(w: World, step: Step)
    requires step.Check? || step.Upsert? || step.LoseLease? || step.LateUpsert? || step.Crash? || step.Reserve?
    ensures Apply(w, step).live == w.live && Apply(w, step).known == w.known
  {
    hide CheckStep, Expected, UpsertAll, CanUpsert, Batch, Without;
  }

  lemma CommitsKeepKnown(w: World, step: Step)
    requires step.Claim? || step.Checkpoint? || step.AdvanceIndexed? || step.AdvanceValidated? || step.Finalize?
    ensures Apply(w, step).live == w.live && Apply(w, step).known == w.known
  {
    match step
    case Claim =>
    case Checkpoint =>
    case AdvanceIndexed =>
    case AdvanceValidated =>
    case Finalize =>
  }

  lemma StepProgresses(w: World, step: Step)
    requires ProgressInv(w) && Orderly(w, step)
    ensures ProgressInv(Apply(w, step))
  {
    StepIsSafe(w, step);
    if !step.Drift? {
      KnownStays(w, step);
    }
    match step
    case Drift(s) => DriftProgresses(w, s);
    case Reserve => ReserveProgresses(w);
    case Claim => ClaimProgresses(w);
    case Upsert(next) => if CanUpsert(w, next) { UpsertProgresses(w, next); }
    case Checkpoint => CheckpointProgresses(w);
    case Crash => CrashProgresses(w);
    case Check => CheckProgresses(w);
    case LoseLease(next) => LoseLeaseProgresses(w, next);
    case LateUpsert(i) => if i < |w.late| { LateUpsertProgresses(w, i); }
    case _ => OtherProgresses(w, step);
  }

  lemma {:induction false} RunProgresses(w: World, run: seq<Step>)
    requires ProgressInv(w) && RunOrderly(w, run)
    ensures ProgressInv(After(w, run))
  {
    hide ProgressInv, Orderly, Apply;
    if run != [] {
      var front := run[..|run|-1];
      forall i | 0 <= i < |front| ensures Orderly(After(w, front[..i]), front[i]) {
        assert front[..i] == run[..i];
      }
      RunProgresses(w, front);
      assert Orderly(After(w, run[..|run|-1]), run[|run|-1]);
      StepProgresses(After(w, front), run[|run|-1]);
    }
  }

  lemma BeginsInOrder(dimension: nat, store: Points, live: Snapshot)
    requires WellFormed(live)
    ensures ProgressInv(Begin(dimension, store, live))
  {
    hide WellFormed;
  }

  /** The committed progress is honest in every reachable state, and no run ends in a stage conflict. */
  lemma FirstPointsArePresent(dimension: nat, store: Points, live: Snapshot, run: seq<Step>)
    requires WellFormed(live) && RunOrderly(Begin(dimension, store, live), run)
    ensures var w := After(Begin(dimension, store, live), run);
            && w.job.status != Failed(StageConflict)
            && (w.job.status == Open ==>
                  && w.job.revision in w.known && w.job.progress <= PointTotal(JobTarget(w))
                  && AllStored(w.store, Expected(JobTarget(w))[..w.job.progress]))
  {
    BeginsInOrder(dimension, store, live);
    RunProgresses(Begin(dimension, store, live), run);
    hide After;
    var w := After(Begin(dimension, store, live), run);
    if w.job.status == Open {
      PromiseCoversProgress(w);
    }
  }

  lemma PromiseCoversProgress(w: World)
    requires ProgressInv(w) && w.job.status == Open
    ensures w.job.progress <= PointTotal(JobTarget(w)) && AllStored(w.store, Expected(JobTarget(w))[..w.job.progress])
  {
    ShorterPrefix(w.store, Expected(JobTarget(w)), Promised(w), w.job.progress);
  }

  // ---- success ---------------------------------------------------------------------------------------------------------

  /**
   A job that has succeeded has left exactly the expected points if and only if what late upserts have
   written since its last count ended, under each identity, as an expected point; in particular when all
   they wrote were points of the finalized target.
   */
  lemma OrderlySuccess(dimension: nat, store: Points, live: Snapshot, run: seq<Step>)
    requires WellFormed(live) && RunOrderly(Begin(dimension, store, live), run)
    ensures var w := After(Begin(dimension, store, live), run);
            w.job.status == Succeeded ==>
              && w.finalized.Some?
              && (Exact(w.store, Expected(w.finalized.value)) <==> Settled(w.landed, Expected(w.finalized.value)))
              && (Within(w.landed, Expected(w.finalized.value)) ==> Exact(w.store, Expected(w.finalized.value)))
  {
    BeginsInOrder(dimension, store, live);
    RunProgresses(Begin(dimension, store, live), run);
    var w := After(Begin(dimension, store, live), run);
    hide After;
    if w.job.status == Succeeded {
      SucceededExactness(w);
      CountedAllIds(w);
      if Within(w.landed, Expected(w.finalized.value)) {
        WithinIsSettled(w.landed, Expected(w.finalized.value));
      }
    }
  }

  lemma CountedAllIds(w: World)
    requires ProgressInv(w) && w.job.status == Succeeded
    ensures w.finalized.Some? && HoldsIds(w.checked, Expected(w.finalized.value))
  {
    hide SafetyInv;
    var entries := Expected(w.finalized.value);
    forall q | 0 <= q < |entries| ensures entries[q].id in w.checked {
      assert Stored(w.checked, entries[q]);
    }
  }

  // ---- validation --------------------------------------------------------------------------------------------------------

  ghost predicate NothingForeign(points: Points, s: Snapshot) { forall id | id in points :: id in Ids(Expected(s)) }

  /** No point of this target's version is stored under an identity nobody expects. */
  ghost predicate NothingForeignOf(points: Points, s: Snapshot, i: nat)
    requires i < |s.targets|
  {
    forall id | id in points && points[id].payload.version == s.targets[i].version :: id in Ids(Expected(s))
  }

  /** What a check asks for, when every expected point is stored. */
  ghost predicate Acceptable(w: World, s: Snapshot, c: Check) {
    match c
    case Counting => w.dimension == s.dimension && NothingForeign(w.store, s)
    case Versions(i) => i < |s.targets| && |s.targets[i].chunks| <= MAX_VERSION_POINTS && NothingForeignOf(w.store, s, i)
    case _ => true
  }

  /**
   A validation is refused only for points nobody expects, a wrong dimension or an uncountable version: the
   count passes exactly when nothing foreign is stored at that moment, the count of a version exactly when
   nothing foreign of that version is, and a batch always. So what lands after the count is not noticed,
   unless it is a foreign point of a version that is still to be counted.
   */
  lemma ValidationFailsOnlyOnForeignPoints(dimension: nat, store: Points, live: Snapshot, run: seq<Step>)
    requires WellFormed(live) && RunOrderly(Begin(dimension, store, live), run)
    ensures var w := After(Begin(dimension, store, live), run);
            w.worker.Some? && w.job.stage != Indexing ==>
              var s := w.worker.value.snapshot;
              Apply(w, Check).job.status == Open <==> Acceptable(w, s, NextCheck(w.worker.value.position))
  {
    BeginsInOrder(dimension, store, live);
    RunProgresses(Begin(dimension, store, live), run);
    var w := After(Begin(dimension, store, live), run);
    hide ProgressInv, After;
    if w.worker.Some? && w.job.stage != Indexing {
      CheckOutcome(w);
    }
  }

  lemma CheckOutcome(w: World)
    requires ProgressInv(w) && w.worker.Some? && w.job.stage != Indexing
    ensures var s, c := w.worker.value.snapshot, NextCheck(w.worker.value.position);
            && (Apply(w, Check).job.status == Open <==> Acceptable(w, s, c))
            && (Acceptable(w, s, c) <==> !CheckStep(s, w.dimension, w.store, c).Refused?)
  {
    var s, c := w.worker.value.snapshot, NextCheck(w.worker.value.position);
    EverythingPromised(w);
    CheckMeans(w, s, c);
    hide AllStored, Acceptable, CheckStep, UpsertAll, KnownInv, WellFormed, CheckedFor, PrefixStored;
  }

  lemma CheckMeans(w: World, s: Snapshot, c: Check)
    requires WellFormed(s) && AllStored(w.store, Expected(s)) && !c.Refused?
    requires c.Versions? ==> c.target < |s.targets|
    ensures Acceptable(w, s, c) <==> !CheckStep(s, w.dimension, w.store, c).Refused?
  {
    match c
    case Counting =>
      StoredIsExact(w.store, s);
      ExpectedIdsDistinct(s);
      CountedIsExact(w.store, Expected(s));
    case Versions(i) => VersionCountMeans(w.store, s, i);
    case Batches(i, a) =>
      if i < |s.targets| && a < |s.targets[i].chunks| {
        AllStoredIsBatchStored(w.store, s, i, a, BatchEnd(s, i, a));
      }
    case Passed =>
  }

  /** With all expected points stored, a version has its chunk count exactly when nothing foreign carries it. */
  lemma VersionCountMeans(points: Points, s: Snapshot, i: nat)
    requires WellFormed(s) && AllStored(points, Expected(s)) && i < |s.targets|
    ensures |VersionIds(points, s.targets[i].version)| == |s.targets[i].chunks| <==> NothingForeignOf(points, s, i)
  {
    var t := s.targets[i];
    var own := EntriesOf(s.dimension, t, t.chunks);
    assert TargetOk(t);
    IdsCount(own);
    OwnIdsStored(points, s, i);
    if NothingForeignOf(points, s, i) {
      forall id | id in VersionIds(points, t.version) ensures id in Ids(own) {
        ForeignOrOwn(points, s, i, id);
      }
      assert VersionIds(points, t.version) == Ids(own);
    }
    if |VersionIds(points, t.version)| == |t.chunks| {
      SubsetOfSameSize(Ids(own), VersionIds(points, t.version));
      forall id | id in points && points[id].payload.version == t.version ensures id in Ids(Expected(s)) {
        assert id in VersionIds(points, t.version);
        OwnIsExpected(s, i, id);
      }
    }
  }

  lemma OwnIdsStored(points: Points, s: Snapshot, i: nat)
    requires AllStored(points, Expected(s)) && i < |s.targets|
    ensures Ids(EntriesOf(s.dimension, s.targets[i], s.targets[i].chunks)) <= VersionIds(points, s.targets[i].version)
  {
    var t := s.targets[i];
    var own := EntriesOf(s.dimension, t, t.chunks);
    forall id | id in Ids(own) ensures id in VersionIds(points, t.version) {
      var k :| 0 <= k < |own| && own[k].id == id;
      EntryAt(s, i, k);
      assert Stored(points, Expected(s)[Offset(s, i) + k]);
    }
  }

  lemma OwnIsExpected(s: Snapshot, i: nat, id: PointId)
    requires i < |s.targets| && id in Ids(EntriesOf(s.dimension, s.targets[i], s.targets[i].chunks))
    ensures id in Ids(Expected(s))
  {
    var own := EntriesOf(s.dimension, s.targets[i], s.targets[i].chunks);
    var k :| 0 <= k < |own| && own[k].id == id;
    EntryAt(s, i, k);
  }

  /** An expected identity stored with this version is one of the target's own. */
  lemma ForeignOrOwn(points: Points, s: Snapshot, i: nat, id: PointId)
    requires WellFormed(s) && AllStored(points, Expected(s)) && i < |s.targets|
    requires id in points && points[id].payload.version == s.targets[i].version && id in Ids(Expected(s))
    ensures id in Ids(EntriesOf(s.dimension, s.targets[i], s.targets[i].chunks))
  {
    var own := EntriesOf(s.dimension, s.targets[i], s.targets[i].chunks);
    WholeOffset(s);
    var p :| 0 <= p < PointTotal(s) && Expected(s)[p].id == id;
    assert Stored(points, Expected(s)[p]);
    var j, k := Locate(s, |s.targets|, p);
    EntryAt(s, j, k);
    assert own[k].id == id;
  }

  lemma StoredIsExact(points: Points, s: Snapshot)
    requires AllStored(points, Expected(s))
    ensures Exact(points, Expected(s)) <==> NothingForeign(points, s)
  {
    if NothingForeign(points, s) {
      forall id | id in points ensures exists i | 0 <= i < |Expected(s)| :: Expected(s)[i].id == id {
        assert id in Ids(Expected(s));
      }
    }
  }
}
