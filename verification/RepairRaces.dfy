/**
 Runs of the repair in which an upsert of an older target lands at the wrong moment, on one document
 with one chunk. They show that the conditions of the repair's theorems cannot be dropped.
 */
module RepairRaces {
  import opened Prelude
  import opened RepairModel
  import opened RepairStages
  import opened RepairRuns
  import opened RepairProgress
  import opened RepairCompletion

  function Single(revision: nat, version: VersionId, metadata: nat): Snapshot {
    Snapshot(revision, 1, 1, [Target(0, version, metadata, [Chunk(0, 0, 0)])])
  }

  function OnlyEntry(version: VersionId, metadata: nat): Entry {
    Entry(PointId(version, 0, 0), Point(1, Payload(0, version, Chunk(0, 0, 0), metadata)))
  }

  lemma SingleExpects(revision: nat, version: VersionId, metadata: nat)
    ensures WellFormed(Single(revision, version, metadata)) && Countable(Single(revision, version, metadata))
    ensures Expected(Single(revision, version, metadata)) == [OnlyEntry(version, metadata)]
    ensures Single(revision, version, metadata).revision == revision && Single(revision, version, metadata).dimension == 1
    ensures Single(revision, version, metadata).batchSize == 1
  {
    var targets := Single(revision, version, metadata).targets;
    assert targets[..0] == [] && targets[0].chunks[..0] == [];
    assert EntriesOf(1, targets[0], targets[0].chunks) == [OnlyEntry(version, metadata)];
    assert Flatten(1, []) == [];
  }

  // ---- a stale upsert on its way ------------------------------------------------------------------------------------------

  /** A worker loses its lease while it upserts the older target, and the newer one takes its place. */
  ghost function StaleUpsert(newer: Snapshot): seq<Step> { [Reserve, Claim, LoseLease(1), Drift(newer)] }

  /** The older target is at revision zero. */
  ghost function Start(older: Snapshot): World { Begin(1, map[], older) }

  ghost function Reserved(older: Snapshot): World { Start(older).(job := Job(Open, Indexing, 0, 1, 0)) }

  ghost function Claimed(older: Snapshot): World { Reserved(older).(worker := Some(Worker(older, Loaded))) }

  ghost function Unleased(older: Snapshot, sent: Entry): World { Reserved(older).(late := [[sent]]) }

  ghost function MovedOn(older: Snapshot, sent: Entry, newer: Snapshot): World {
    Unleased(older, sent).(live := newer, known := map[0 := older][newer.revision := newer])
  }

  ghost function Restarted(older: Snapshot, sent: Entry, newer: Snapshot): World {
    MovedOn(older, sent, newer).(job := Job(Open, Indexing, 0, 1, newer.revision))
  }

  /** What the snapshots of these runs have in common. */
  ghost predicate IsSingle(s: Snapshot, e: Entry) {
    WellFormed(s) && Countable(s) && s.dimension == 1 && s.batchSize == 1 && Expected(s) == [e]
  }

  lemma AfterStaleUpsert(older: Snapshot, sent: Entry, newer: Snapshot)
    requires IsSingle(older, sent) && older.revision == 0 && WellFormed(newer)
    ensures After(Start(older), StaleUpsert(newer)) == MovedOn(older, sent, newer)
  {
    hide Start, Apply, After, Reserved, Claimed, Unleased, MovedOn, IsSingle, WellFormed;
    Claims(older, sent);
    LosesLease(older, sent);
    Drifts(older, sent, newer);
    Chain([Start(older), Reserved(older), Claimed(older), Unleased(older, sent), MovedOn(older, sent, newer)], StaleUpsert(newer));
  }

  lemma Claims(older: Snapshot, sent: Entry)
    requires IsSingle(older, sent) && older.revision == 0
    ensures Apply(Start(older), Reserve) == Reserved(older) && Apply(Reserved(older), Claim) == Claimed(older)
  {
    hide Expected, WellFormed, Countable;
  }

  lemma OldBatch(older: Snapshot, sent: Entry)
    requires IsSingle(older, sent)
    ensures CanUpsert(Claimed(older), 1) && Batch(Claimed(older), 1) == [sent]
  {
    hide Expected, WellFormed, Countable;
    var entries := Expected(older);
    assert |entries| == 1 && entries[0..1] == entries;
  }

  lemma LosesLease(older: Snapshot, sent: Entry)
    requires IsSingle(older, sent)
    ensures Apply(Claimed(older), LoseLease(1)) == Unleased(older, sent)
  {
    OldBatch(older, sent);
    hide CanUpsert, Batch, IsSingle;
    assert [] + [[sent]] == [[sent]];
  }

  lemma Drifts(older: Snapshot, sent: Entry, newer: Snapshot)
    requires older.revision == 0 && WellFormed(newer)
    ensures Apply(Unleased(older, sent), Drift(newer)) == MovedOn(older, sent, newer)
  {
    hide WellFormed;
  }

  /** At a new revision the job restarts; at the old one it goes on with the newer target. */
  lemma MovedOnIsAlone(older: Snapshot, sent: Entry, newer: Snapshot, e: Entry)
    requires IsSingle(older, sent) && older.revision == 0 && IsSingle(newer, e)
    ensures newer.revision == 0 ==> Alone(MovedOn(older, sent, newer))
    ensures newer.revision > 0 ==> Alone(Restarted(older, sent, newer))
    ensures newer.revision > 0 ==> Apply(MovedOn(older, sent, newer), Claim) == Restarted(older, sent, newer)
  {
    hide Expected, WellFormed, Countable;
    assert DistinctIds([sent]);
    assert Expected(newer)[..0] == [];
  }

  lemma AfterRestart(older: Snapshot, sent: Entry, newer: Snapshot, e: Entry)
    requires IsSingle(older, sent) && older.revision == 0 && IsSingle(newer, e) && newer.revision > 0
    ensures After(Start(older), StaleUpsert(newer) + [Claim]) == Restarted(older, sent, newer)
    ensures var w := Restarted(older, sent, newer);
            Alone(w) && w.worker.None? && w.job.stage == Indexing && w.late == [[sent]] && w.live == newer
  {
    AfterStaleUpsert(older, sent, newer);
    MovedOnIsAlone(older, sent, newer, e);
    hide After, Apply, Start, StaleUpsert, Alone, IsSingle;
    Chain([MovedOn(older, sent, newer), Restarted(older, sent, newer)], [Claim]);
    AfterJoins(Start(older), StaleUpsert(newer), [Claim]);
  }

  lemma NotExpected(v: VersionId, m: nat, v': VersionId, m': nat)
    requires v != v' || m != m'
    ensures !Within([OnlyEntry(v, m)], [OnlyEntry(v', m')])
  {
    assert [OnlyEntry(v, m)][0] !in [OnlyEntry(v', m')];
  }

  // ---- after success -----------------------------------------------------------------------------------------------------

  /**
   Exactness does not last by itself: here an older version was being upserted when the worker lost its
   lease, the newer version is repaired and the job succeeds, and then the older point arrives.
   */
  lemma LateUpsertBreaksExactness() returns (run: seq<Step>)
    ensures var w := After(Start(Single(0, 0, 0)), run);
            w.job.status == Succeeded && w.finalized == Some(Single(1, 1, 0)) && Exact(w.store, Expected(Single(1, 1, 0)))
    ensures var w := After(Start(Single(0, 0, 0)), run + [LateUpsert(0)]);
            w.job.status == Succeeded && !Exact(w.store, Expected(Single(1, 1, 0)))
  {
    var older, newer, sent := Single(0, 0, 0), Single(1, 1, 0), OnlyEntry(0, 0);
    SingleExpects(0, 0, 0);
    SingleExpects(1, 1, 0);
    AfterRestart(older, sent, newer, OnlyEntry(1, 0));
    NotExpected(0, 0, 1, 0);
    var repair := LateUpsertUndoes(Restarted(older, sent, newer), 0);
    var start := StaleUpsert(newer) + [Claim];
    run := start + repair;
    hide After, Expected, Exact, Alone, Start, StaleUpsert, Single, Restarted;
    AfterJoins(Start(older), start, repair);
    AfterJoins(Start(older), start, repair + [LateUpsert(0)]);
    assert start + (repair + [LateUpsert(0)]) == run + [LateUpsert(0)];
  }

  // ---- inside the last validation -----------------------------------------------------------------------------------------

  /**
   The older point arrives between the count of the last validation and its next call: the validation
   passes, the job succeeds, and the collection holds a point nobody expects.
   */
  lemma ForeignUpsertDuringValidation() returns (run: seq<Step>)
    ensures var w := After(Start(Single(0, 0, 0)), run);
            && w.job.status == Succeeded && w.finalized == Some(Single(1, 1, 0)) && w.landed == [OnlyEntry(0, 0)]
            && !Exact(w.store, Expected(Single(1, 1, 0)))
  {
    var older, newer, sent := Single(0, 0, 0), Single(1, 1, 0), OnlyEntry(0, 0);
    SingleExpects(0, 0, 0);
    SingleExpects(1, 1, 0);
    AfterRestart(older, sent, newer, OnlyEntry(1, 0));
    NotExpected(0, 0, 1, 0);
    assert Unnoticed([sent], newer);
    var before, behind := ForeignUpsertSlipsIn(Restarted(older, sent, newer), 0);
    var start := StaleUpsert(newer) + [Claim];
    run := start + (before + [LateUpsert(0)] + behind);
    hide After, Expected, Exact, Alone, Start, StaleUpsert, Single, Restarted, Unnoticed;
    AfterJoins(Start(older), start, before + [LateUpsert(0)] + behind);
  }

  /** The job of a repair in its last stage. */
  ghost predicate Completing(w: World, s: Snapshot, e: Entry) {
    && w.live == s && w.worker.None? && w.store == map[e.id := e.point] && w.dimension == 1
    && w.job == Job(Open, Complete, 1, 1, 0)
  }

  lemma ReachesCompleting(w: World, e: Entry) returns (run: seq<Step>)
    requires Alone(w) && w.worker.None? && IsSingle(w.live, e) && w.live.revision == 0
    ensures Completing(After(w, run), w.live, e) && After(w, run).late == w.late
  {
    run := ReachComplete(w);
    var after := After(w, run);
    hide After;
    JobIsForTheLiveTarget(after);
    IsOpen(after);
    AllPromisedIsExact(after, e);
  }

  lemma AllPromisedIsExact(w: World, e: Entry)
    requires Alone(w) && w.worker.None? && IsSingle(w.live, e) && w.job.stage == Complete
    ensures w.store == map[e.id := e.point] && w.job.progress == w.job.total == 1 && w.dimension == 1
  {
    JobIsForTheLiveTarget(w);
    PromiseCoversProgress(w);
    var entries := Expected(w.live);
    hide Expected, SafetyInv, WellFormed, UpsertAll;
    assert entries[..1] == entries && entries[0] == e && Stored(w.store, entries[..1][0]);
    forall id | id in w.store ensures id == e.id {
      assert id in Ids(entries);
    }
  }

  /** The steps from the last stage of one target to the success of another of the same revision. */
  ghost function LateToTheCount(other: Snapshot): seq<Step> { [Drift(other), Claim, Check, LateUpsert(0), Check, Check, Finalize] }

  lemma CountsTheWrongPoint(w: World, s: Snapshot, wrong: Entry, other: Snapshot, e: Entry)
    requires Completing(w, s, wrong) && w.late == [[e]] && s.revision == 0 && other.revision == 0 && IsSingle(other, e)
    requires |other.targets| == 1 && |other.targets[0].chunks| == 1 && wrong.id != e.id
    requires wrong.point.payload.version != other.targets[0].version && e.point.payload.version == other.targets[0].version
    ensures var after := After(w, LateToTheCount(other));
            && after.job.status == Succeeded && after.finalized == Some(other) && after.landed == [e]
            && after.checked == map[wrong.id := wrong.point] && after.store == map[wrong.id := wrong.point, e.id := e.point]
  {
    var w1 := w.(live := other, known := w.known[0 := other]);
    var w2 := w1.(worker := Some(Worker(other, Loaded)));
    var counted := w2.(checked := w.store, landed := []);
    var w3 := Positioned(counted, Versions(0));
    var both := map[wrong.id := wrong.point, e.id := e.point];
    var landed := counted.(store := both, late := [], landed := [e]);
    var w4, w5, w6 := Positioned(landed, Versions(0)), Positioned(landed, Batches(0, 0)), Positioned(landed, Passed);
    var w7 := landed.(job := w.job.(status := Succeeded), worker := None, finalized := Some(other));
    Lands(w.store, wrong, e);
    OtherClaims(w, s, wrong, other, e);
    OtherChecks(both, wrong, other, e);
    OtherCounts(w2, wrong, other, e);
    OtherLands(w3, w4, e, both);
    OtherPasses(w4, w5, w6, other);
    OtherFinalizes(w6, w7, other, e);
    hide Apply, After, Positioned, Completing, IsSingle;
    Chain([w, w1, w2, w3, w4, w5, w6, w7], LateToTheCount(other));
  }

  lemma Lands(points: Points, wrong: Entry, e: Entry)
    requires points == map[wrong.id := wrong.point] && wrong.id != e.id
    ensures UpsertAll(points, [e]) == map[wrong.id := wrong.point, e.id := e.point]
  {
    assert [e][..0] == [];
  }

  lemma OtherClaims(w: World, s: Snapshot, wrong: Entry, other: Snapshot, e: Entry)
    requires Completing(w, s, wrong) && s.revision == 0 && other.revision == 0 && IsSingle(other, e)
    ensures var w1 := w.(live := other, known := w.known[0 := other]);
            Apply(w, Drift(other)) == w1 && Apply(w1, Claim) == w1.(worker := Some(Worker(other, Loaded)))
  {
    hide Expected, WellFormed, Countable;
  }

  lemma OtherCounts(w: World, wrong: Entry, other: Snapshot, e: Entry)
    requires w.worker == Some(Worker(other, Loaded)) && w.job.stage == Complete && w.dimension == 1
    requires w.store == map[wrong.id := wrong.point] && IsSingle(other, e) && |other.targets| == 1
    ensures Apply(w, Check) == Positioned(w.(checked := w.store, landed := []), Versions(0))
  {
    hide Expected, WellFormed, Countable;
    assert |w.store| == 1;
  }

  lemma OtherLands(w: World, after: World, e: Entry, both: Points)
    requires w.worker == after.worker && w.late == [[e]] && w.landed == [] && UpsertAll(w.store, [e]) == both
    requires after == w.(store := both, late := [], landed := [e])
    ensures Apply(w, LateUpsert(0)) == after
  {
    hide UpsertAll;
    assert Without(w.late, 0) == [] && w.landed + [e] == [e];
  }

  /** The version is counted and its chunk is there, beside a point of another version. */
  lemma OtherChecks(both: Points, wrong: Entry, other: Snapshot, e: Entry)
    requires both == map[wrong.id := wrong.point, e.id := e.point] && wrong.id != e.id && IsSingle(other, e)
    requires |other.targets| == 1 && |other.targets[0].chunks| == 1
    requires wrong.point.payload.version != other.targets[0].version && e.point.payload.version == other.targets[0].version
    ensures CheckStep(other, 1, both, Versions(0)) == Batches(0, 0) && CheckStep(other, 1, both, Batches(0, 0)) == Passed
  {
    assert VersionIds(both, other.targets[0].version) == {e.id};
    EntryAt(other, 0, 0);
    assert other.targets[..0] == [] && Offset(other, 0) == 0;
    assert BatchEnd(other, 0, 0) == 1;
  }

  lemma OtherPasses(w4: World, w5: World, w6: World, other: Snapshot)
    requires w4.worker == Some(Worker(other, Checking(Versions(0)))) && w4.job.stage == Complete && w4.dimension == 1
    requires w5 == Positioned(w4, Batches(0, 0)) && w6 == Positioned(w4, Passed)
    requires CheckStep(other, 1, w4.store, Versions(0)) == Batches(0, 0) && CheckStep(other, 1, w4.store, Batches(0, 0)) == Passed
    ensures Apply(w4, Check) == w5 && Apply(w5, Check) == w6
  {
    hide CheckStep;
  }

  lemma OtherFinalizes(w: World, after: World, other: Snapshot, e: Entry)
    requires w.worker == Some(Worker(other, VALIDATED)) && w.live == other && w.job == Job(Open, Complete, 1, 1, 0)
    requires other.revision == 0 && IsSingle(other, e)
    requires after == w.(job := w.job.(status := Succeeded), worker := None, finalized := Some(other))
    ensures Apply(w, Finalize) == after
  {
    hide Expected, WellFormed, Countable;
  }

  /**
   All that lands is a point of the finalized target, and still the collection is not exact: the content
   had changed without a new revision, so the last validation counted a point of the older content in place
   of the one that landed before it was looked for.
   */
  lemma TargetPointComesAfterTheCount() returns (run: seq<Step>)
    ensures var w, s := After(Start(Single(0, 1, 0)), run), Single(0, 1, 0);
            && w.job.status == Succeeded && w.finalized == Some(s) && Within(w.landed, Expected(s))
            && !HoldsIds(w.checked, Expected(s)) && !Exact(w.store, Expected(s))
  {
    var s, other, e, wrong := Single(0, 1, 0), Single(0, 0, 0), OnlyEntry(1, 0), OnlyEntry(0, 0);
    SingleExpects(0, 1, 0);
    SingleExpects(0, 0, 0);
    AfterStaleUpsert(s, e, other);
    MovedOnIsAlone(s, e, other, wrong);
    var w := MovedOn(s, e, other);
    var complete := ReachesCompleting(w, wrong);
    var w1 := After(w, complete);
    hide After, Expected, Exact, Alone, Start, StaleUpsert, MovedOn, Completing, LateToTheCount;
    CountsTheWrongPoint(w1, other, wrong, s, e);
    AfterJoins(w, complete, LateToTheCount(s));
    AfterJoins(Start(s), StaleUpsert(other), complete + LateToTheCount(s));
    run := StaleUpsert(other) + (complete + LateToTheCount(s));
    WrongPoint(wrong, e);
  }

  lemma WrongPoint(wrong: Entry, e: Entry)
    requires wrong.id != e.id
    ensures !HoldsIds(map[wrong.id := wrong.point], [e]) && Within([e], [e])
    ensures !Exact(map[wrong.id := wrong.point, e.id := e.point], [e])
  {
    assert [e][0].id !in map[wrong.id := wrong.point];
    var both := map[wrong.id := wrong.point, e.id := e.point];
    if Exact(both, [e]) {
      ExactHolds(both, [e], wrong);
      assert false;
    }
  }

  // ---- before the validation ---------------------------------------------------------------------------------------------

  /**
   The document's metadata has changed while its version stayed: the older point arrives after the newer
   one was committed and overwrites it. The progress says one point, but that point is not stored.
   */
  lemma StaleMetadataOverwrites() returns (run: seq<Step>)
    ensures var w, s := After(Start(Single(0, 0, 0)), run), Single(1, 0, 1);
            && w.job.status == Open && w.live == s && w.job.progress == PointTotal(s) == 1
            && !AllStored(w.store, Expected(s)[..w.job.progress])
  {
    hide After, Exact, Alone, Start, StaleUpsert, Single, Restarted, Expected, Working, Agreeable;
    var older, newer, sent, e := Single(0, 0, 0), Single(1, 0, 1), OnlyEntry(0, 0), OnlyEntry(0, 1);
    SingleExpects(0, 0, 0);
    SingleExpects(1, 0, 1);
    AfterRestart(older, sent, newer, e);
    var w := Restarted(older, sent, newer);
    var work := OverwritesTheOnly(w, sent, newer, e);
    var start := StaleUpsert(newer) + [Claim];
    run := start + work;
    AfterJoins(Start(older), start, work);
    assert Expected(newer)[..1] == Expected(newer);
  }

  lemma OverwritesTheOnly(w: World, sent: Entry, newer: Snapshot, e: Entry) returns (run: seq<Step>)
    requires Alone(w) && w.worker.None? && w.job.stage == Indexing && w.late == [[sent]]
    requires w.live == newer && Expected(newer) == [e] && sent.id == e.id && sent != e
    ensures var after := After(w, run);
            && after.job.status == Open && after.live == newer && after.job.progress == PointTotal(newer)
            && !AllStored(after.store, Expected(newer))
  {
    hide After, Alone, Expected, Working;
    assert [sent][0].id == [e][0].id && [sent][0] != [e][0];
    var work := StaleUpsertUndoesProgress(w, 0);
    WorkKeepsLive(w, work);
    run := work + [LateUpsert(0)];
  }

  lemma {:induction false} WorkKeepsLive(w: World, run: seq<Step>)
    requires Working(run)
    ensures After(w, run + [LateUpsert(0)]).live == w.live && After(w, run).live == w.live
  {
    hide Apply;
    if run != [] {
      var front := run[..|run|-1];
      assert forall step | step in front :: step in run;
      assert run[|run|-1] in run;
      WorkKeepsLive(w, front);
      WorkKeepsWorld(After(w, front), run[|run|-1]);
    }
    LandingKeepsLive(After(w, run), 0);
    assert (run + [LateUpsert(0)])[..|run|] == run;
  }

  lemma LandingKeepsLive(w: World, i: nat)
    ensures Apply(w, LateUpsert(i)).live == w.live
  {}
}
