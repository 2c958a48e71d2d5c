/**
 The stages of a generation repair, indexing/repair.py, against one Qdrant collection and one job row.
 Anything outside may fail: an embedding call, a worker's process, its lease. Such a stop is the
 outcome Interrupted, chosen freely wherever the code awaits something.
 */
module RepairStages {
  import opened Prelude
  import opened RepairModel

  datatype Stage = Indexing | Validating | Complete

  datatype Failure = StageConflict | CollectionConflict | ValidationFailed

  // ---- the collection ------------------------------------------------------------------------------------

  predicate BatchOk(dimension: nat, batch: seq<Entry>) {
    && batch != [] && |batch| <= MAX_BATCH && DistinctIds(batch)
    && forall i | 0 <= i < |batch| :: batch[i].point.dimension == dimension
  }

  predicate Retrievable(points: Points, v: VersionId, ids: seq<PointId>) {
    && 1 <= |ids| <= MAX_BATCH
    && (forall i, j | 0 <= i < j < |ids| :: ids[i] != ids[j])
    && forall i | 0 <= i < |ids| :: ids[i] in points && points[ids[i]].payload.version == v
  }

  lemma {:induction false} UpsertKeepsDimension(points: Points, batch: seq<Entry>, dimension: nat)
    requires forall i | 0 <= i < |batch| :: batch[i].point.dimension == dimension
    ensures (forall id | id in points :: points[id].dimension == dimension) ==>
              forall id | id in UpsertAll(points, batch) :: UpsertAll(points, batch)[id].dimension == dimension
  {
    if batch != [] {
      UpsertKeepsDimension(points, batch[..|batch|-1], dimension);
    }
  }

  class QdrantCollection {
    const dimension: nat
    var points: Points
    /** Every point upserted, in order. */
    ghost var log: seq<Entry>

    constructor (dimension: nat, points: Points)
      ensures this.dimension == dimension && this.points == points && log == []
    {
      this.dimension, this.points, this.log := dimension, points, [];
    }

    method UpsertPoints(batch: seq<Entry>) returns (ok: bool)
      modifies this
      ensures ok <==> BatchOk(dimension, batch)
      ensures points == if ok then UpsertAll(old(points), batch) else old(points)
      ensures log == if ok then old(log) + batch else old(log)
      ensures ok ==> AllStored(points, batch)
      ensures (forall id | id in old(points) :: old(points)[id].dimension == dimension) ==>
                forall id | id in points :: points[id].dimension == dimension
    {
      ok := BatchOk(dimension, batch);
      if !ok {
        return;
      }
      UpsertStores(points, batch);
      UpsertKeepsDimension(points, batch, dimension);
      for i := 0 to |batch|
        invariant points == UpsertAll(old(points), batch[..i])
        invariant log == old(log)
      {
        assert batch[..i+1][..i] == batch[..i];
        points := points[batch[i].id := batch[i].point];
      }
      assert batch[..|batch|] == batch;
      log := log + batch;
    }

    /** Whatever other workers' upserts land while the caller awaits something. */
    method Await() returns (ghost batches: seq<seq<Entry>>)
      modifies this
      ensures points == Land(old(points), batches)
      ensures forall i | 0 <= i < |batches| :: BatchOk(dimension, batches[i])
    {
      batches := [];
      var n :| n >= 0;
      for i := 0 to n
        invariant points == Land(old(points), batches)
        invariant forall k | 0 <= k < |batches| :: BatchOk(dimension, batches[k])
      {
        var batch: seq<Entry> := *;
        var ok := UpsertPoints(batch);
        if ok {
          assert (batches + [batch])[..|batches|] == batches;
          batches := batches + [batch];
        }
      }
    }

    method CountPoints() returns (count: nat)
      ensures count == |points|
    {
      count := |points|;
    }

    method CountVersionPoints(v: VersionId) returns (count: Option<nat>)
      ensures count == if |VersionIds(points, v)| > MAX_VERSION_POINTS then None else Some(|VersionIds(points, v)|)
    {
      var matching := VersionIds(points, v);
      count := if |matching| > MAX_VERSION_POINTS then None else Some(|matching|);
    }

    /** Identity, dimension and payload digest of each requested point, or the error the client raises. */
    method RetrieveVersionPoints(v: VersionId, ids: seq<PointId>) returns (result: Option<seq<Entry>>)
      ensures result.Some? <==> Retrievable(points, v, ids)
      ensures result.Some? ==>
                |result.value| == |ids| && forall i | 0 <= i < |ids| :: result.value[i] == Entry(ids[i], points[ids[i]])
    {
      if !(1 <= |ids| <= MAX_BATCH) || exists i, j | 0 <= i < j < |ids| :: ids[i] == ids[j] {
        return None;
      }
      var found: seq<Entry> := [];
      for i := 0 to |ids|
        invariant |found| == i
        invariant forall k | 0 <= k < i :: ids[k] in points && points[ids[k]].payload.version == v
        invariant forall k | 0 <= k < i :: found[k] == Entry(ids[k], points[ids[k]])
      {
        if ids[i] !in points || points[ids[i]].payload.version != v {
          return None;
        }
        found := found + [Entry(ids[i], points[ids[i]])];
      }
      result := Some(found);
    }
  }

  // ---- the job row -----------------------------------------------------------------------------------------

  datatype CommitResult = Committed | TargetChanged | LostLease

  class RebuildJob {
    var stage: Stage
    var progress: nat
    var total: nat
    var revision: nat
    var succeeded: bool
    /** Every progress committed for the current target, in order. */
    ghost var commits: seq<nat>

    constructor (stage: Stage, progress: nat, total: nat, revision: nat)
      ensures this.stage == stage && this.progress == progress && this.total == total && this.revision == revision
      ensures commits == [] && !succeeded
    {
      this.stage, this.progress, this.total, this.revision, this.commits := stage, progress, total, revision, [];
      this.succeeded := false;
    }

    /**
     `commit_stage_checkpoint` and `advance_stage`: the lease fence, the control plane check, then the
     update. `held` says whether the worker still holds its lease on this row, `current` whether the
     control plane still agrees with the snapshot.
     */
    method Commit(next: Stage, progress': nat, held: bool, current: bool) returns (r: CommitResult)
      modifies this
      ensures r == if !held then LostLease else if !current then TargetChanged else Committed
      ensures r == Committed ==>
                && stage == next && progress == progress' && commits == old(commits) + [progress']
                && total == old(total) && revision == old(revision) && succeeded == old(succeeded)
      ensures r != Committed ==> unchanged(this)
    {
      if !held {
        return LostLease;
      }
      if !current {
        return TargetChanged;
      }
      stage, progress := next, progress';
      commits := commits + [progress'];
      r := Committed;
    }

    /** `reset_rebuild_target`: under the same fence, the job restarts on the refreshed target. */
    method Reset(refreshed: Snapshot, held: bool) returns (r: CommitResult)
      modifies this
      ensures r == if held then Committed else LostLease
      ensures held ==>
                && stage == Indexing && progress == 0 && total == PointTotal(refreshed) && revision == refreshed.revision
                && commits == [] && succeeded == old(succeeded)
      ensures !held ==> unchanged(this)
    {
      if !held {
        return LostLease;
      }
      stage, progress, total, revision := Indexing, 0, PointTotal(refreshed), refreshed.revision;
      commits := [];
      r := Committed;
    }

    /** `finalize_domain`: the lease fence, then the comparison with the target that is live. */
    method Finalize(s: Snapshot, live: Snapshot, held: bool) returns (r: CommitResult)
      modifies this
      ensures r == if !held then LostLease
                   else if live.revision != revision || live != s || PointTotal(live) != total then TargetChanged else Committed
      ensures r == Committed ==>
                && succeeded && stage == old(stage) && progress == old(progress) && total == old(total)
                && revision == old(revision) && commits == old(commits)
      ensures r != Committed ==> unchanged(this)
    {
      if !held {
        return LostLease;
      }
      if live.revision != revision || live != s || PointTotal(live) != total {
        return TargetChanged;
      }
      succeeded := true;
      r := Committed;
    }
  }

  // ---- indexing ------------------------------------------------------------------------------------------------

  /** How a run of a stage ended. */
  datatype Outcome = Advanced | Finalized | Interrupted | Restarted | Stopped(failure: Failure)

  datatype Trace = Trace(points: Points, log: seq<Entry>, commits: seq<nat>)

  ghost function Now(job: RebuildJob, store: QdrantCollection): Trace
    reads job, store
  {
    Trace(store.points, store.log, job.commits)
  }

  /** Each commit exceeds the one before it by at most a batch, the first starts at `from`, the last is `to`. */
  predicate Climbs(from: nat, commits: seq<nat>, to: nat, batchSize: nat) {
    && (forall i | 0 <= i < |commits| :: Follows(CommitBefore(from, commits, i), commits[i], batchSize))
    && to == CommitBefore(from, commits, |commits|)
  }

  function CommitBefore(from: nat, commits: seq<nat>, i: nat): nat
    requires i <= |commits|
  {
    if i == 0 then from else commits[i-1]
  }

  predicate Follows(previous: nat, next: nat, batchSize: nat) { previous < next <= previous + batchSize }

  /**
   From progress p the stage has upserted exactly the expected points p to `uploaded`, in order, and
   committed rising progress up to `progress`; at most one batch is upserted and not committed.
   */
  ghost predicate Indexed(s: Snapshot, p: nat, before: Trace, after: Trace, progress: nat, uploaded: nat) {
    && p <= progress <= uploaded <= PointTotal(s)
    && uploaded - progress <= s.batchSize
    && after.log == before.log + Expected(s)[p..uploaded]
    && after.points == UpsertAll(before.points, Expected(s)[p..uploaded])
    && before.commits <= after.commits
    && Climbs(p, after.commits[|before.commits|..], progress, s.batchSize)
  }

  lemma {:induction false} UpsertTwice(points: Points, a: seq<Entry>, b: seq<Entry>)
    ensures UpsertAll(UpsertAll(points, a), b) == UpsertAll(points, a + b)
  {
    if b == [] {
      assert a + b == a;
    } else {
      assert (a + b)[..|a + b|-1] == a + b[..|b|-1];
      UpsertTwice(points, a, b[..|b|-1]);
    }
  }

  lemma UploadExtends(s: Snapshot, p: nat, before: Trace, now: Trace, from: nat, to: nat)
    requires Indexed(s, p, before, now, from, from)
    requires from <= to <= PointTotal(s) && to - from <= s.batchSize
    ensures Indexed(s, p, before,
                    Trace(UpsertAll(now.points, Expected(s)[from..to]), now.log + Expected(s)[from..to], now.commits), from, to)
  {
    hide Flatten, UpsertAll, Climbs;
    SlicesMeet(Expected(s), p, from, to);
    UpsertTwice(before.points, Expected(s)[p..from], Expected(s)[from..to]);
  }

  lemma SlicesMeet(entries: seq<Entry>, a: nat, b: nat, c: nat)
    requires a <= b <= c <= |entries|
    ensures entries[a..b] + entries[b..c] == entries[a..c]
  {}

  lemma CommitExtends(s: Snapshot, p: nat, before: Trace, now: Trace, from: nat, to: nat)
    requires Indexed(s, p, before, now, from, to) && from < to
    ensures Indexed(s, p, before, now.(commits := now.commits + [to]), to, to)
  {
    var n := |before.commits|;
    assert (now.commits + [to])[n..] == now.commits[n..] + [to];
    ClimbOnce(p, now.commits[n..], from, to, s.batchSize);
  }

  lemma ClimbOnce(p: nat, commits: seq<nat>, from: nat, to: nat, batchSize: nat)
    requires Climbs(p, commits, from, batchSize) && Follows(from, to, batchSize)
    ensures Climbs(p, commits + [to], to, batchSize)
  {
    var more := commits + [to];
    forall i | 0 <= i < |more| ensures Follows(CommitBefore(p, more, i), more[i], batchSize) {
      if i < |commits| {
        assert more[i] == commits[i] && (i > 0 ==> more[i-1] == commits[i-1]);
        assert Follows(CommitBefore(p, commits, i), commits[i], batchSize);
      }
    }
  }

  /** The first `progress` expected points survive the stage, wherever it stops. */
  lemma IndexedKeepsPrefix(s: Snapshot, p: nat, before: Trace, after: Trace, progress: nat, uploaded: nat)
    requires WellFormed(s) && Indexed(s, p, before, after, progress, uploaded)
    requires AllStored(before.points, Expected(s)[..p])
    ensures AllStored(after.points, Expected(s)[..uploaded]) && AllStored(after.points, Expected(s)[..progress])
  {
    ExpectedIdsDistinct(s);
    UpsertExtendsPrefix(before.points, Expected(s), p, uploaded);
    forall i | 0 <= i < progress ensures Stored(after.points, Expected(s)[..progress][i]) {
      assert Expected(s)[..uploaded][i] == Expected(s)[..progress][i];
    }
  }

  lemma BatchIsExpected(s: Snapshot, i: nat, a: nat, b: nat)
    requires WellFormed(s) && i < |s.targets| && a < b <= |s.targets[i].chunks| && b - a <= s.batchSize
    ensures Offset(s, i) + b <= PointTotal(s)
    ensures var batch := EntriesOf(s.dimension, s.targets[i], s.targets[i].chunks[a..b]);
            batch == Expected(s)[Offset(s, i) + a..Offset(s, i) + b] && BatchOk(s.dimension, batch)
  {
    assert TargetOk(s.targets[i]);
    BatchOfTarget(s.dimension, s.targets[i], a, b);
    BatchIsSlice(s, i, a, b);
  }

  lemma BatchIsSlice(s: Snapshot, i: nat, a: nat, b: nat)
    requires i < |s.targets| && a < b <= |s.targets[i].chunks|
    ensures Offset(s, i) + b <= PointTotal(s)
    ensures EntriesOf(s.dimension, s.targets[i], s.targets[i].chunks[a..b]) == Expected(s)[Offset(s, i) + a..Offset(s, i) + b]
  {
    hide Flatten, Expected, EntriesOf;
    var t, from, to, entries := s.targets[i], Offset(s, i), Offset(s, i + 1), Expected(s);
    SegmentOf(s, i, entries);
    SliceOfEntries(s.dimension, t, a, b);
    SliceOfSlice(entries, from, to, a, b);
  }

  lemma SegmentOf(s: Snapshot, i: nat, entries: seq<Entry>)
    requires i < |s.targets| && entries == Expected(s)
    ensures Offset(s, i + 1) == Offset(s, i) + |s.targets[i].chunks| <= |entries| == PointTotal(s)
    ensures entries[Offset(s, i)..Offset(s, i + 1)] == EntriesOf(s.dimension, s.targets[i], s.targets[i].chunks)
  {
    TargetSegment(s, i);
  }

  lemma SliceOfSlice(entries: seq<Entry>, from: nat, to: nat, a: nat, b: nat)
    requires from <= to <= |entries| && a <= b <= to - from
    ensures entries[from..to][a..b] == entries[from + a..from + b]
  {
    var segment := entries[from..to];
    forall k | 0 <= k < b - a ensures segment[a..b][k] == entries[from + a..from + b][k] {
      assert segment[a + k] == entries[from + a + k];
    }
  }

  lemma SliceOfEntries(dimension: nat, t: Target, a: nat, b: nat)
    requires a <= b <= |t.chunks|
    ensures EntriesOf(dimension, t, t.chunks)[a..b] == EntriesOf(dimension, t, t.chunks[a..b])
  {
    var whole, part := EntriesOf(dimension, t, t.chunks), EntriesOf(dimension, t, t.chunks[a..b]);
    hide EntriesOf;
    forall k | 0 <= k < b - a ensures whole[a..b][k] == part[k] {
      assert t.chunks[a..b][k] == t.chunks[a + k];
      assert whole[a + k] == EntryOf(dimension, t, t.chunks[a + k]);
    }
    assert whole[a..b] == part;
  }

  lemma BatchOfTarget(dimension: nat, t: Target, a: nat, b: nat)
    requires TargetOk(t) && a < b <= |t.chunks| && b - a <= MAX_BATCH
    ensures BatchOk(dimension, EntriesOf(dimension, t, t.chunks[a..b]))
  {}

  /** Embedding one batch and upserting its points. */
  method UpsertBatch(store: QdrantCollection, s: Snapshot, t: Target, a: nat, b: nat, ghost i: nat) returns (done: bool)
    requires WellFormed(s) && i < |s.targets| && t == s.targets[i] && store.dimension == s.dimension
    requires a < b <= |t.chunks| && b - a <= s.batchSize
    modifies store
    ensures Offset(s, i) + b <= PointTotal(s)
    ensures !done ==> unchanged(store)
    ensures done ==>
              && store.points == UpsertAll(old(store.points), Expected(s)[Offset(s, i) + a..Offset(s, i) + b])
              && store.log == old(store.log) + Expected(s)[Offset(s, i) + a..Offset(s, i) + b]
  {
    BatchIsExpected(s, i, a, b);
    if * {
      return false;
    }
    done := store.UpsertPoints(EntriesOf(s.dimension, t, t.chunks[a..b]));
  }

  /**
   Committing one batch. `current` says whether the control plane still agrees with the snapshot when
   the commit asks; None means the loop goes on.
   */
  method CommitBatch(job: RebuildJob, refreshed: Snapshot, current: bool, next: nat) returns (outcome: Option<Outcome>)
    requires job.stage == Indexing && next <= job.total
    modifies job
    ensures outcome == Some(Interrupted) ==> unchanged(job)
    ensures outcome.None? || outcome == Some(Advanced) ==>
              && job.progress == next && job.commits == old(job.commits) + [next]
              && job.total == old(job.total) && job.revision == old(job.revision)
    ensures outcome.None? ==> next < job.total && job.stage == Indexing
    ensures outcome == Some(Advanced) ==> next == job.total && job.stage == Validating
    ensures outcome == Some(Restarted) ==>
              && !current && job.stage == Indexing && job.progress == 0 && job.total == PointTotal(refreshed)
              && job.revision == refreshed.revision
    ensures outcome.None? || outcome.value.Advanced? || outcome.value.Interrupted? || outcome.value.Restarted?
  {
    var finished := next == job.total;
    var held: bool := *;
    var r := job.Commit(if finished then Validating else Indexing, next, held, current);
    match r
    case LostLease => return Some(Interrupted);
    case TargetChanged =>
      var stillHeld: bool := *;
      var reset := job.Reset(refreshed, stillHeld);
      return Some(if reset == Committed then Restarted else Interrupted);
    case Committed => return if finished then Some(Advanced) else None;
  }

  /** The job row and the collection between two batches. */
  ghost predicate Between(s: Snapshot, p: nat, before: Trace, job: RebuildJob, store: QdrantCollection)
    reads job, store
  {
    && job.stage == Indexing && job.progress < job.total == PointTotal(s) && job.revision == s.revision
    && Indexed(s, p, before, Now(job, store), job.progress, job.progress)
  }

  /** Where a run of the loops may stop. */
  ghost predicate Stops(s: Snapshot, refreshed: Snapshot, p: nat, before: Trace, job: RebuildJob, store: QdrantCollection,
                        outcome: Outcome, uploaded: nat)
    reads job, store
  {
    match outcome
    case Advanced =>
      && job.stage == Validating && job.progress == job.total == PointTotal(s) && job.revision == s.revision
      && Indexed(s, p, before, Now(job, store), job.progress, uploaded)
    case Interrupted =>
      && job.stage == Indexing && job.total == PointTotal(s) && job.revision == s.revision
      && (job.progress < job.total || p == job.total)
      && Indexed(s, p, before, Now(job, store), job.progress, uploaded)
    case Restarted =>
      && job.stage == Indexing && job.progress == 0 && job.total == PointTotal(refreshed) && job.revision == refreshed.revision
      && exists commits: seq<nat>, q: nat ::
           Indexed(s, p, before, Trace(store.points, store.log, commits), q, uploaded) && (q < uploaded || p == PointTotal(s))
    case _ => false
  }

  /** One batch: embed, upsert, commit; None means the loop goes on. */
  method IndexBatch(job: RebuildJob, store: QdrantCollection, s: Snapshot, refreshed: Snapshot, t: Target, a: nat, b: nat,
                    ghost i: nat, ghost p: nat, ghost before: Trace)
    returns (outcome: Option<Outcome>, ghost uploaded: nat)
    requires WellFormed(s) && i < |s.targets| && t == s.targets[i] && store.dimension == s.dimension
    requires a < b <= |t.chunks| && b - a <= s.batchSize
    requires Between(s, p, before, job, store) && job.progress == Offset(s, i) + a
    modifies job, store
    ensures outcome.None? ==> Between(s, p, before, job, store) && job.progress == Offset(s, i) + b
    ensures outcome.Some? ==> Stops(s, refreshed, p, before, job, store, outcome.value, uploaded)
  {
    hide Flatten, UpsertAll, Climbs;
    ghost var from, now := job.progress, Now(job, store);
    uploaded := from;
    var done := UpsertBatch(store, s, t, a, b, i);
    if !done {
      return Some(Interrupted), uploaded;
    }
    uploaded := Offset(s, i) + b;
    UploadExtends(s, p, before, now, from, uploaded);
    ghost var here := Now(job, store);
    assert Indexed(s, p, before, here, from, uploaded);
    if * {
      return Some(Interrupted), uploaded;
    }
    var current: bool := *;
    outcome := CommitBatch(job, refreshed, current, job.progress + (b - a));
    if outcome.None? || outcome == Some(Advanced) {
      CommitExtends(s, p, before, here, from, uploaded);
      assert Now(job, store) == here.(commits := here.commits + [uploaded]);
    }
    if outcome == Some(Restarted) {
      assert Trace(store.points, store.log, here.commits) == here;
    }
  }

  /** The loops of `_indexing_stage`: targets in order, then batches of one target from the first chunk not yet indexed. */
  method IndexTargets(job: RebuildJob, store: QdrantCollection, s: Snapshot, refreshed: Snapshot)
    returns (outcome: Outcome, ghost uploaded: nat)
    requires WellFormed(s) && store.dimension == s.dimension
    requires job.stage == Indexing && job.progress < job.total == PointTotal(s) && job.revision == s.revision
    modifies job, store
    ensures Stops(s, refreshed, old(job.progress), old(Now(job, store)), job, store, outcome, uploaded)
  {
    ghost var before, p := Now(job, store), job.progress;
    uploaded := p;
    assert Expected(s)[p..p] == [] && before.commits[|before.commits|..] == [];
    var globalOffset := 0;
    for i := 0 to |s.targets|
      invariant globalOffset == Offset(s, i) <= job.progress
      invariant Between(s, p, before, job, store)
    {
      var t := s.targets[i];
      TargetSegment(s, i);
      var targetEnd := globalOffset + |t.chunks|;
      if job.progress < targetEnd {
        var a := job.progress - globalOffset;
        while a < |t.chunks|
          invariant 0 <= a <= |t.chunks| && job.progress == globalOffset + a
          invariant Between(s, p, before, job, store)
        {
          var b := if a + s.batchSize < |t.chunks| then a + s.batchSize else |t.chunks|;
          var stopped;
          stopped, uploaded := IndexBatch(job, store, s, refreshed, t, a, b, i, p, before);
          if stopped.Some? {
            return stopped.value, uploaded;
          }
          a := b;
        }
      }
      globalOffset := targetEnd;
    }
    WholeOffset(s);
    assert false;
  }

  /** `_indexing_stage`, after the snapshot has been matched to the job. */
  method IndexingStage(job: RebuildJob, store: QdrantCollection, s: Snapshot, refreshed: Snapshot)
    returns (outcome: Outcome, ghost uploaded: nat)
    requires WellFormed(s)
    requires job.stage == Indexing && job.total == PointTotal(s) && job.revision == s.revision
    modifies job, store
    ensures outcome == Stopped(CollectionConflict) <==> store.dimension != s.dimension
    ensures outcome == Stopped(StageConflict) <==> store.dimension == s.dimension && old(job.progress) > PointTotal(s)
    ensures outcome.Stopped? ==> unchanged(job) && unchanged(store)
    ensures outcome != Stopped(ValidationFailed)
    ensures !outcome.Stopped? ==>
              Stops(s, refreshed, old(job.progress), old(Now(job, store)), job, store, outcome, uploaded)
    ensures outcome == Advanced && old(job.progress) == 0 ==> ChunksAdded(s, old(store.points), store.points)
  {
    ghost var before, p := Now(job, store), job.progress;
    uploaded := job.progress;
    if store.dimension != s.dimension {
      return Stopped(CollectionConflict), uploaded;
    }
    if job.progress > PointTotal(s) {
      return Stopped(StageConflict), uploaded;
    }
    assert Expected(s)[p..p] == [];
    assert before.commits[|before.commits|..] == [];
    if job.progress == PointTotal(s) {
      outcome := AdvanceToValidating(job, s, refreshed);
      if p == 0 {
        assert UpsertAll(store.points, []) == store.points;
        UpsertAddsChunks(s, store.points);
        assert Expected(s) == [];
      }
      assert Indexed(s, p, before, Trace(store.points, store.log, before.commits), p, p);
      return;
    }
    outcome, uploaded := IndexTargets(job, store, s, refreshed);
    if outcome == Advanced && p == 0 {
      IndexedFromTheStart(s, before, Now(job, store), job.progress, uploaded);
    }
  }

  /** A stage that started at zero and has come to the end has added the points of all chunks. */
  lemma IndexedFromTheStart(s: Snapshot, before: Trace, after: Trace, progress: nat, uploaded: nat)
    requires WellFormed(s) && Indexed(s, 0, before, after, progress, uploaded) && progress == PointTotal(s)
    ensures ChunksAdded(s, before.points, after.points)
  {
    assert Expected(s)[0..PointTotal(s)] == Expected(s);
    UpsertAddsChunks(s, before.points);
  }

  /** Entered with nothing left to index: the stage advances without a batch. */
  method AdvanceToValidating(job: RebuildJob, s: Snapshot, refreshed: Snapshot) returns (outcome: Outcome)
    requires job.stage == Indexing && job.progress == job.total == PointTotal(s)
    modifies job
    ensures outcome == Advanced ==>
              && job.stage == Validating && job.progress == old(job.progress) && job.total == old(job.total)
              && job.revision == old(job.revision) && job.commits == old(job.commits)
    ensures outcome == Interrupted ==> unchanged(job)
    ensures outcome == Restarted ==>
              job.stage == Indexing && job.progress == 0 && job.total == PointTotal(refreshed) && job.revision == refreshed.revision
    ensures outcome.Advanced? || outcome.Interrupted? || outcome.Restarted?
  {
    if * {
      return Interrupted;
    }
    if * {
      var held: bool := *;
      var reset := job.Reset(refreshed, held);
      return if reset == Committed then Restarted else Interrupted;
    }
    job.stage := Validating;
    outcome := Advanced;
  }

  // ---- what validation checks, call by call -----------------------------------------------------------------------

  /** The collection answers counts for every expected version. */
  predicate Countable(s: Snapshot) {
    forall i | 0 <= i < |s.targets| :: |s.targets[i].chunks| <= MAX_VERSION_POINTS
  }

  /**
   Where `_validate_qdrant` stands: before its count of all points, before the count of a version, before
   the retrieval of a version's chunks from `at` on, or at its end. Every step is one call, and anything
   may be written to the collection between two of them.
   */
  datatype Check = Counting | Versions(target: nat) | Batches(target: nat, at: nat) | Passed | Refused(failure: Failure)

  /** The check in front of a target, or the end. */
  function NextTarget(s: Snapshot, i: nat): Check { if i < |s.targets| then Versions(i) else Passed }

  function BatchEnd(s: Snapshot, i: nat, a: nat): nat
    requires i < |s.targets|
  {
    if a + s.batchSize < |s.targets[i].chunks| then a + s.batchSize else |s.targets[i].chunks|
  }

  /** The chunks a to b of a target are stored with the right content. */
  predicate BatchStored(points: Points, s: Snapshot, i: nat, a: nat, b: nat)
    requires i < |s.targets| && b <= |s.targets[i].chunks|
  {
    forall k | a <= k < b :: Stored(points, EntryOf(s.dimension, s.targets[i], s.targets[i].chunks[k]))
  }

  /** One call, answered by what is stored at that moment; the collection's dimension never changes. */
  function CheckStep(s: Snapshot, dimension: nat, points: Points, c: Check): Check {
    match c
    case Counting =>
      if dimension != s.dimension then Refused(CollectionConflict)
      else if |points| != PointTotal(s) then Refused(ValidationFailed)
      else NextTarget(s, 0)
    case Versions(i) =>
      if i >= |s.targets| then c
      else
        var count := |VersionIds(points, s.targets[i].version)|;
        if count > MAX_VERSION_POINTS then Refused(CollectionConflict)
        else if count != |s.targets[i].chunks| then Refused(ValidationFailed)
        else Batches(i, 0)
    case Batches(i, a) =>
      if i >= |s.targets| || a >= |s.targets[i].chunks| then c
      else if !BatchStored(points, s, i, a, BatchEnd(s, i, a)) then Refused(ValidationFailed)
      else if BatchEnd(s, i, a) < |s.targets[i].chunks| then Batches(i, BatchEnd(s, i, a))
      else NextTarget(s, i + 1)
    case _ => c
  }

  // ---- what a validation has seen ------------------------------------------------------------------------------------

  /** At the count, or after one of the writes that landed since, the entry was stored. */
  ghost predicate Seen(checked: Points, landed: seq<Entry>, e: Entry) {
    exists n | 0 <= n <= |landed| :: Stored(UpsertAll(checked, landed[..n]), e)
  }

  ghost predicate SeenUpTo(s: Snapshot, checked: Points, landed: seq<Entry>, p: nat) {
    p <= PointTotal(s) && forall q | 0 <= q < p :: Seen(checked, landed, Expected(s)[q])
  }

  predicate CountableUpTo(s: Snapshot, i: nat) {
    i <= |s.targets| && forall j | 0 <= j < i :: |s.targets[j].chunks| <= MAX_VERSION_POINTS
  }

  /**
   What is known at a check. `checked` is the collection as it was counted, `landed` what has been
   written since: the count was right, and each point checked so far was there at some moment.
   */
  ghost predicate CheckedUpTo(s: Snapshot, dimension: nat, checked: Points, landed: seq<Entry>, c: Check) {
    match c
    case Counting => false
    case Refused(_) => true
    case Versions(i) =>
      Counted(s, dimension, checked) && i < |s.targets| && CountableUpTo(s, i) && SeenUpTo(s, checked, landed, Offset(s, i))
    case Batches(i, a) =>
      && Counted(s, dimension, checked) && i < |s.targets| && a < |s.targets[i].chunks| && CountableUpTo(s, i + 1)
      && SeenUpTo(s, checked, landed, Offset(s, i) + a)
    case Passed =>
      Counted(s, dimension, checked) && CountableUpTo(s, |s.targets|) && SeenUpTo(s, checked, landed, PointTotal(s))
  }

  predicate Counted(s: Snapshot, dimension: nat, checked: Points) { dimension == s.dimension && |checked| == PointTotal(s) }

  lemma SeenLater(checked: Points, landed: seq<Entry>, more: seq<Entry>, e: Entry)
    requires Seen(checked, landed, e)
    ensures Seen(checked, landed + more, e)
  {
    var n :| 0 <= n <= |landed| && Stored(UpsertAll(checked, landed[..n]), e);
    assert (landed + more)[..n] == landed[..n];
  }

  /** Whatever lands between two calls, what has been seen stays seen. */
  lemma LandingKeepsChecked(s: Snapshot, dimension: nat, checked: Points, landed: seq<Entry>, more: seq<Entry>, c: Check)
    requires CheckedUpTo(s, dimension, checked, landed, c)
    ensures CheckedUpTo(s, dimension, checked, landed + more, c)
  {
    hide Seen, Expected, Offset;
    forall q | 0 <= q < PointTotal(s) && Seen(checked, landed, Expected(s)[q]) ensures Seen(checked, landed + more, Expected(s)[q]) {
      SeenLater(checked, landed, more, Expected(s)[q]);
    }
  }

  lemma SeenNow(checked: Points, landed: seq<Entry>, e: Entry)
    requires Stored(UpsertAll(checked, landed), e)
    ensures Seen(checked, landed, e)
  {
    assert landed[..|landed|] == landed;
  }

  /** A batch that is stored now extends what has been seen. */
  lemma BatchExtendsSeen(s: Snapshot, checked: Points, landed: seq<Entry>, i: nat, a: nat, b: nat)
    requires i < |s.targets| && a <= b <= |s.targets[i].chunks|
    requires SeenUpTo(s, checked, landed, Offset(s, i) + a) && BatchStored(UpsertAll(checked, landed), s, i, a, b)
    ensures SeenUpTo(s, checked, landed, Offset(s, i) + b)
  {
    hide Seen, Expected, Offset, BatchStored, UpsertAll, Stored, EntryOf;
    TargetSegment(s, i);
    forall q | Offset(s, i) + a <= q < Offset(s, i) + b ensures Seen(checked, landed, Expected(s)[q]) {
      BatchEntrySeen(s, checked, landed, i, a, b, q - Offset(s, i));
    }
  }

  lemma BatchEntrySeen(s: Snapshot, checked: Points, landed: seq<Entry>, i: nat, a: nat, b: nat, k: nat)
    requires i < |s.targets| && a <= k < b <= |s.targets[i].chunks| && BatchStored(UpsertAll(checked, landed), s, i, a, b)
    ensures Offset(s, i) + k < PointTotal(s) && Seen(checked, landed, Expected(s)[Offset(s, i) + k])
  {
    hide Seen, Expected, Offset, UpsertAll, EntryOf;
    EntryAt(s, i, k);
    SeenNow(checked, landed, Expected(s)[Offset(s, i) + k]);
  }

  lemma NextTargetChecked(s: Snapshot, dimension: nat, checked: Points, landed: seq<Entry>, i: nat)
    requires Counted(s, dimension, checked) && CountableUpTo(s, i) && SeenUpTo(s, checked, landed, Offset(s, i))
    ensures CheckedUpTo(s, dimension, checked, landed, NextTarget(s, i))
  {
    WholeOffset(s);
    hide Seen, Expected, Offset;
  }

  /** The count begins a validation. */
  lemma CountBegins(s: Snapshot, dimension: nat, points: Points)
    ensures CheckedUpTo(s, dimension, points, [], CheckStep(s, dimension, points, Counting))
  {
    if Counted(s, dimension, points) {
      assert s.targets[..0] == [];
      NextTargetChecked(s, dimension, points, [], 0);
    }
  }

  lemma CheckKeepsChecked(s: Snapshot, dimension: nat, checked: Points, landed: seq<Entry>, c: Check)
    requires WellFormed(s) && CheckedUpTo(s, dimension, checked, landed, c)
    ensures CheckedUpTo(s, dimension, checked, landed, CheckStep(s, dimension, UpsertAll(checked, landed), c))
  {
    hide Seen, Expected, Offset, UpsertAll;
    match c
    case Versions(i) => assert TargetOk(s.targets[i]);
    case Batches(i, a) =>
      var b := BatchEnd(s, i, a);
      if BatchStored(UpsertAll(checked, landed), s, i, a, b) {
        BatchExtendsSeen(s, checked, landed, i, a, b);
        if b == |s.targets[i].chunks| {
          TargetSegment(s, i);
          NextTargetChecked(s, dimension, checked, landed, i + 1);
        }
      }
    case _ =>
  }

  // ---- the calls against a collection that others write --------------------------------------------------------------

  /** What is stored after batches have landed one by one. */
  function Land(points: Points, batches: seq<seq<Entry>>): Points {
    if batches == [] then points else UpsertAll(Land(points, batches[..|batches|-1]), batches[|batches|-1])
  }

  /** What is stored when as many calls have been made as there are landings, each landing before its call. */
  function Moment(points: Points, landings: seq<seq<seq<Entry>>>): Points {
    if landings == [] then points else Land(Moment(points, landings[..|landings|-1]), landings[|landings|-1])
  }

  /** Where the validation stands then. */
  function CheckRun(s: Snapshot, dimension: nat, points: Points, landings: seq<seq<seq<Entry>>>): Check {
    if landings == [] then Counting
    else CheckStep(s, dimension, Moment(points, landings), CheckRun(s, dimension, points, landings[..|landings|-1]))
  }

  /** The validation so far: its position and the collection agree with what has landed. */
  ghost predicate InStep(s: Snapshot, store: QdrantCollection, points: Points, landings: seq<seq<seq<Entry>>>, c: Check)
    reads store
  {
    store.points == Moment(points, landings) && c == CheckRun(s, store.dimension, points, landings)
  }

  lemma NextCall(s: Snapshot, dimension: nat, points: Points, landings: seq<seq<seq<Entry>>>, batches: seq<seq<Entry>>)
    ensures var more := landings + [batches];
            && Moment(points, more) == Land(Moment(points, landings), batches)
            && CheckRun(s, dimension, points, more)
               == CheckStep(s, dimension, Moment(points, more), CheckRun(s, dimension, points, landings))
  {
    assert (landings + [batches])[..|landings|] == landings;
  }

  /** One batch of one target: retrieved and compared point by point. */
  method CheckBatch(store: QdrantCollection, s: Snapshot, t: Target, a: nat, b: nat, ghost i: nat) returns (ok: bool)
    requires WellFormed(s) && i < |s.targets| && t == s.targets[i] && a < b <= |t.chunks| && b - a <= s.batchSize
    ensures ok <==> BatchStored(store.points, s, i, a, b)
  {
    assert TargetOk(t);
    var ids := seq(b - a, k requires 0 <= k < b - a => EntryOf(s.dimension, t, t.chunks[a + k]).id);
    if BatchStored(store.points, s, i, a, b) {
      StoredBatchIsRetrievable(store.points, s, i, a, b, ids);
    }
    var actual := store.RetrieveVersionPoints(t.version, ids);
    if actual.None? {
      return false;
    }
    for k := 0 to b - a
      invariant BatchStored(store.points, s, i, a, a + k)
    {
      var expected := EntryOf(s.dimension, t, t.chunks[a + k]);
      assert actual.value[k] == Entry(ids[k], store.points[ids[k]]) && ids[k] == expected.id;
      if actual.value[k] != expected {
        return false;
      }
    }
    ok := true;
  }

  /** A stored batch is one the client hands over. */
  lemma StoredBatchIsRetrievable(points: Points, s: Snapshot, i: nat, a: nat, b: nat, ids: seq<PointId>)
    requires WellFormed(s) && i < |s.targets| && a < b <= |s.targets[i].chunks| && b - a <= s.batchSize
    requires BatchStored(points, s, i, a, b)
    requires |ids| == b - a
    requires forall k | 0 <= k < |ids| :: ids[k] == EntryOf(s.dimension, s.targets[i], s.targets[i].chunks[a + k]).id
    ensures Retrievable(points, s.targets[i].version, ids)
  {
    assert TargetOk(s.targets[i]);
    forall k | 0 <= k < |ids| ensures ids[k] in points && points[ids[k]].payload.version == s.targets[i].version {
      assert Stored(points, EntryOf(s.dimension, s.targets[i], s.targets[i].chunks[a + k]));
    }
  }

  /**
   One target: its point count, then its batches. `done` says that every check of the target has passed;
   otherwise the validation is refused, or interrupted where a call fails for another reason.
   */
  method ValidateTarget(store: QdrantCollection, s: Snapshot, t: Target, i: nat, ghost points: Points,
                        ghost before: seq<seq<seq<Entry>>>)
    returns (done: bool, c: Check, ghost landings: seq<seq<seq<Entry>>>)
    requires WellFormed(s) && i < |s.targets| && t == s.targets[i] && InStep(s, store, points, before, Versions(i))
    modifies store
    ensures InStep(s, store, points, landings, c) && before <= landings
    ensures if done then c == NextTarget(s, i + 1) else c.Refused? || c == Versions(i) || (c.Batches? && c.target == i)
    ensures c != Refused(StageConflict)
  {
    hide CheckRun, Moment, Land, UpsertAll, VersionIds;
    assert TargetOk(t);
    landings, c := before, Versions(i);
    if * {
      return false, c, landings;
    }
    ghost var batches := store.Await();
    NextCall(s, store.dimension, points, landings, batches);
    landings := landings + [batches];
    var count := store.CountVersionPoints(t.version);
    if count.None? {
      return false, Refused(CollectionConflict), landings;
    }
    if count.value != |t.chunks| {
      return false, Refused(ValidationFailed), landings;
    }
    var a := 0;
    c := Batches(i, 0);
    while a < |t.chunks|
      invariant 0 <= a <= |t.chunks| && before <= landings && InStep(s, store, points, landings, c)
      invariant c == if a < |t.chunks| then Batches(i, a) else NextTarget(s, i + 1)
    {
      if * {
        return false, c, landings;
      }
      batches := store.Await();
      var b := if a + s.batchSize < |t.chunks| then a + s.batchSize else |t.chunks|;
      NextCall(s, store.dimension, points, landings, batches);
      landings := landings + [batches];
      var ok := CheckBatch(store, s, t, a, b, i);
      if !ok {
        return false, Refused(ValidationFailed), landings;
      }
      a := b;
      c := if b < |t.chunks| then Batches(i, b) else NextTarget(s, i + 1);
    }
    done := true;
  }

  /**
   `_validate_qdrant`, against a collection that others may write whenever the code awaits a call: it ends
   where the calls lead, in a verdict or, where one fails for another reason, at that call.
   */
  method ValidateQdrant(store: QdrantCollection, s: Snapshot) returns (c: Check, ghost landings: seq<seq<seq<Entry>>>)
    requires WellFormed(s)
    modifies store
    ensures InStep(s, store, old(store.points), landings, c)
    ensures c != Refused(StageConflict)
  {
    hide CheckRun, Moment, Land, UpsertAll;
    ghost var points := store.points;
    landings, c := [], Counting;
    NoCallYet(s, store.dimension, points);
    if * {
      return;
    }
    ghost var batches := store.Await();
    NextCall(s, store.dimension, points, landings, batches);
    landings := landings + [batches];
    if store.dimension != s.dimension {
      return Refused(CollectionConflict), landings;
    }
    var count := store.CountPoints();
    if count != PointTotal(s) {
      return Refused(ValidationFailed), landings;
    }
    c := NextTarget(s, 0);
    for i := 0 to |s.targets|
      invariant c == NextTarget(s, i) && InStep(s, store, points, landings, c)
    {
      var done;
      done, c, landings := ValidateTarget(store, s, s.targets[i], i, points, landings);
      if !done {
        return;
      }
    }
  }

  lemma NoCallYet(s: Snapshot, dimension: nat, points: Points)
    ensures Moment(points, []) == points && CheckRun(s, dimension, points, []) == Counting
  {}

  // ---- what a verdict means ------------------------------------------------------------------------------------------

  function Concat(batches: seq<seq<Entry>>): seq<Entry> {
    if batches == [] then [] else Concat(batches[..|batches|-1]) + batches[|batches|-1]
  }

  /** What has landed since the first call, the count. */
  function LandedSince(landings: seq<seq<seq<Entry>>>): seq<Entry> {
    if |landings| <= 1 then [] else LandedSince(landings[..|landings|-1]) + Concat(landings[|landings|-1])
  }

  lemma {:induction false} LandIsUpsert(points: Points, batches: seq<seq<Entry>>)
    ensures Land(points, batches) == UpsertAll(points, Concat(batches))
  {
    if batches != [] {
      LandIsUpsert(points, batches[..|batches|-1]);
      UpsertTwice(points, Concat(batches[..|batches|-1]), batches[|batches|-1]);
    }
  }

  /** The collection as it was counted, and everything that landed since. */
  lemma {:induction false} RunIsChecked(s: Snapshot, dimension: nat, points: Points, landings: seq<seq<seq<Entry>>>)
    requires WellFormed(s) && landings != []
    ensures var checked, landed := Moment(points, landings[..1]), LandedSince(landings);
            && Moment(points, landings) == UpsertAll(checked, landed)
            && CheckedUpTo(s, dimension, checked, landed, CheckRun(s, dimension, points, landings))
  {
    var front, last := landings[..|landings|-1], landings[|landings|-1];
    var checked := Moment(points, landings[..1]);
    if |landings| == 1 {
      assert landings[..1] == landings && front == [];
      CountBegins(s, dimension, checked);
    } else {
      hide CheckedUpTo, CheckStep;
      RunIsChecked(s, dimension, points, front);
      assert front[..1] == landings[..1];
      LandIsUpsert(Moment(points, front), last);
      UpsertTwice(checked, LandedSince(front), Concat(last));
      var c := CheckRun(s, dimension, points, front);
      LandingKeepsChecked(s, dimension, checked, LandedSince(front), Concat(last), c);
      CheckKeepsChecked(s, dimension, checked, LandedSince(landings), c);
    }
  }

  predicate HoldsIds(points: Points, entries: seq<Entry>) { forall q | 0 <= q < |entries| :: entries[q].id in points }

  /** An identity that is never written keeps its content. */
  lemma UnwrittenStays(points: Points, landed: seq<Entry>, n: nat, id: PointId)
    requires n <= |landed| && id !in UpsertAll(map[], landed)
    ensures id in UpsertAll(points, landed[..n]) <==> id in points
    ensures id in points ==> UpsertAll(points, landed[..n])[id] == points[id]
  {
    UpsertMerges(points, landed[..n]);
    assert landed[..n] + landed[n..] == landed;
    UpsertTwice(map[], landed[..n], landed[n..]);
    UpsertMerges(UpsertAll(map[], landed[..n]), landed[n..]);
  }

  /**
   A validation that has passed leaves an exact collection if and only if every expected identity was
   there when it counted, and what landed since ended, under each identity, as an expected point.
   */
  lemma PassedExactly(s: Snapshot, dimension: nat, checked: Points, landed: seq<Entry>)
    requires WellFormed(s) && CheckedUpTo(s, dimension, checked, landed, Passed)
    ensures Exact(UpsertAll(checked, landed), Expected(s)) <==> Settled(landed, Expected(s)) && HoldsIds(checked, Expected(s))
  {
    var entries := Expected(s);
    ExpectedIdsDistinct(s);
    IdsCount(entries);
    if Exact(UpsertAll(checked, landed), entries) {
      ExactIsSettled(checked, landed, entries);
      ExactHeldIds(checked, landed, entries);
    }
    if Settled(landed, entries) && HoldsIds(checked, entries) {
      SettledIsExact(checked, landed, entries);
    }
  }

  lemma ExactIsSettled(checked: Points, landed: seq<Entry>, entries: seq<Entry>)
    requires Exact(UpsertAll(checked, landed), entries)
    ensures Settled(landed, entries)
  {
    UpsertMerges(checked, landed);
    var written := UpsertAll(map[], landed);
    forall id | id in written ensures Entry(id, written[id]) in entries {
      var i :| 0 <= i < |entries| && entries[i].id == id;
      assert Stored(checked + written, entries[i]);
      assert entries[i] == Entry(id, written[id]);
    }
  }

  lemma ExactHeldIds(checked: Points, landed: seq<Entry>, entries: seq<Entry>)
    requires Exact(UpsertAll(checked, landed), entries) && |checked| == |entries| == |Ids(entries)|
    ensures HoldsIds(checked, entries)
  {
    UpsertMerges(checked, landed);
    forall id | id in checked.Keys ensures id in Ids(entries) {
      assert id in UpsertAll(checked, landed);
    }
    assert |checked.Keys| == |checked|;
    SubsetOfSameSize(checked.Keys, Ids(entries));
    forall q | 0 <= q < |entries| ensures entries[q].id in checked {
      assert entries[q].id in Ids(entries);
    }
  }

  lemma SettledIsExact(checked: Points, landed: seq<Entry>, entries: seq<Entry>)
    requires DistinctIds(entries) && |checked| == |entries| == |Ids(entries)|
    requires forall q | 0 <= q < |entries| :: Seen(checked, landed, entries[q])
    requires Settled(landed, entries) && HoldsIds(checked, entries)
    ensures Exact(UpsertAll(checked, landed), entries)
  {
    UpsertMerges(checked, landed);
    var store := UpsertAll(checked, landed);
    forall q | 0 <= q < |entries| ensures Stored(store, entries[q]) {
      SettledStores(checked, landed, entries, q);
    }
    assert Ids(entries) <= checked.Keys && |checked.Keys| == |checked|;
    SubsetOfSameSize(Ids(entries), checked.Keys);
    forall id | id in store ensures exists i | 0 <= i < |entries| :: entries[i].id == id {
      if id in UpsertAll(map[], landed) {
        assert Entry(id, UpsertAll(map[], landed)[id]) in entries;
      } else {
        assert id in Ids(entries);
      }
    }
  }

  lemma SettledStores(checked: Points, landed: seq<Entry>, entries: seq<Entry>, q: nat)
    requires DistinctIds(entries) && q < |entries| && Seen(checked, landed, entries[q]) && Settled(landed, entries)
    requires entries[q].id in checked
    ensures Stored(UpsertAll(checked, landed), entries[q])
  {
    var e := entries[q];
    UpsertMerges(checked, landed);
    if e.id in UpsertAll(map[], landed) {
      var i :| 0 <= i < |entries| && entries[i] == Entry(e.id, UpsertAll(map[], landed)[e.id]);
      assert i == q;
    } else {
      var n :| 0 <= n <= |landed| && Stored(UpsertAll(checked, landed[..n]), e);
      UnwrittenStays(checked, landed, n, e.id);
    }
  }

  /** With nothing landed since the count, passing means exact. */
  lemma PassedStill(s: Snapshot, dimension: nat, checked: Points)
    requires WellFormed(s) && CheckedUpTo(s, dimension, checked, [], Passed)
    ensures Exact(checked, Expected(s)) && Settled([], Expected(s)) && HoldsIds(checked, Expected(s))
  {
    PassedExactly(s, dimension, checked, []);
    forall q | 0 <= q < PointTotal(s) ensures Expected(s)[q].id in checked {
      assert Seen(checked, [], Expected(s)[q]);
    }
    assert UpsertAll(checked, []) == checked;
  }

  /** Against an exact, countable collection of the right dimension no check is refused. */
  lemma ExactIsNotRefused(s: Snapshot, points: Points, c: Check)
    requires WellFormed(s) && Exact(points, Expected(s)) && Countable(s) && !c.Refused?
    ensures !CheckStep(s, s.dimension, points, c).Refused?
  {
    match c
    case Counting =>
      ExpectedIdsDistinct(s);
      CountedIsExact(points, Expected(s));
    case Versions(i) => if i < |s.targets| { ExactVersionCount(s, points, i); }
    case Batches(i, a) => if i < |s.targets| && a < |s.targets[i].chunks| { AllStoredIsBatchStored(points, s, i, a, BatchEnd(s, i, a)); }
    case _ =>
  }

  lemma AllStoredIsBatchStored(points: Points, s: Snapshot, i: nat, a: nat, b: nat)
    requires AllStored(points, Expected(s)) && i < |s.targets| && b <= |s.targets[i].chunks|
    ensures BatchStored(points, s, i, a, b)
  {
    forall k | a <= k < b ensures Stored(points, EntryOf(s.dimension, s.targets[i], s.targets[i].chunks[k])) {
      EntryAt(s, i, k);
      assert Stored(points, Expected(s)[Offset(s, i) + k]);
    }
  }

  /** Some expected version has more points than the collection counts. */
  predicate Uncountable(s: Snapshot, points: Points) {
    exists i | 0 <= i < |s.targets| :: |VersionIds(points, s.targets[i].version)| > MAX_VERSION_POINTS
  }

  /** Why a call of a validation is refused. */
  lemma RefusedFor(s: Snapshot, dimension: nat, points: Points, c: Check)
    requires WellFormed(s) && !c.Refused?
    ensures var next := CheckStep(s, dimension, points, c);
            && (next == Refused(CollectionConflict) ==> (c.Counting? && dimension != s.dimension) || Uncountable(s, points))
            && (next == Refused(ValidationFailed) ==> (c.Counting? ==> dimension == s.dimension) && !Exact(points, Expected(s)))
            && next != Refused(StageConflict)
  {
    match c
    case Counting =>
      ExpectedIdsDistinct(s);
      CountedIsExact(points, Expected(s));
    case Versions(i) => if i < |s.targets| && Exact(points, Expected(s)) { ExactVersionCount(s, points, i); }
    case Batches(i, a) =>
      if i < |s.targets| && a < |s.targets[i].chunks| && AllStored(points, Expected(s)) {
        AllStoredIsBatchStored(points, s, i, a, BatchEnd(s, i, a));
      }
    case _ =>
  }

  /**
   In a collection nobody else writes meanwhile, a validation that comes to a verdict passes exactly when
   the collection holds the expected points and nothing else. It is refused as a conflict of the collection
   exactly for a wrong dimension or a version with too many points to be counted, and as failed otherwise.
   */
  lemma {:induction false} StillValidation(s: Snapshot, dimension: nat, points: Points, landings: seq<seq<seq<Entry>>>)
    requires WellFormed(s) && forall k | 0 <= k < |landings| :: landings[k] == []
    ensures Moment(points, landings) == points && LandedSince(landings) == []
    ensures var c := CheckRun(s, dimension, points, landings);
            var good := dimension == s.dimension && Exact(points, Expected(s)) && Countable(s);
            && (c.Passed? ==> good) && (c.Refused? ==> !good)
            && (c == Refused(CollectionConflict) ==> dimension != s.dimension || Uncountable(s, points))
            && (c == Refused(ValidationFailed) ==> dimension == s.dimension && !Exact(points, Expected(s)))
            && c != Refused(StageConflict)
  {
    if landings != [] {
      var front := landings[..|landings|-1];
      StillValidation(s, dimension, points, front);
      var before := CheckRun(s, dimension, points, front);
      var c := CheckRun(s, dimension, points, landings);
      RunIsChecked(s, dimension, points, landings);
      StillMoment(points, landings);
      hide CheckStep, CheckRun, Exact, Expected, Moment;
      if c.Passed? {
        PassedStill(s, dimension, points);
      }
      if c.Refused? && dimension == s.dimension && Exact(points, Expected(s)) && Countable(s) {
        ExactIsNotRefused(s, points, before);
        assert false;
      }
      if !before.Refused? {
        RefusedFor(s, dimension, points, before);
        CountsFirst(s, dimension, points, front);
      }
    }
  }

  /** After the count the dimension is known to be right. */
  lemma {:induction false} CountsFirst(s: Snapshot, dimension: nat, points: Points, landings: seq<seq<seq<Entry>>>)
    ensures var c := CheckRun(s, dimension, points, landings); c.Counting? || c.Refused? || dimension == s.dimension
    ensures landings == [] <==> CheckRun(s, dimension, points, landings).Counting?
  {
    hide BatchStored, VersionIds, Expected;
    if landings != [] {
      CountsFirst(s, dimension, points, landings[..|landings|-1]);
    }
  }

  lemma {:induction false} StillMoment(points: Points, landings: seq<seq<seq<Entry>>>)
    requires forall k | 0 <= k < |landings| :: landings[k] == []
    ensures Moment(points, landings) == points && LandedSince(landings) == []
    ensures landings != [] ==> Moment(points, landings[..1]) == points
  {
    if landings != [] {
      StillMoment(points, landings[..|landings|-1]);
      assert landings[..1][..0] == [] && landings[..1][0] == [];
    }
  }

  // ---- the validating and the complete stage -------------------------------------------------------------------------

  /** Where a run of the validating stage may stop. */
  ghost predicate ValidatingStops(s: Snapshot, refreshed: Snapshot, points: Points, progress: nat, job: RebuildJob,
                                  store: QdrantCollection, outcome: Outcome, c: Check, landings: seq<seq<seq<Entry>>>)
    reads job, store
  {
    && InStep(s, store, points, landings, c)
    && match outcome
       case Advanced => c == Passed && job.total == PointTotal(s) && IsRow(job, Complete, job.total, s)
       case Interrupted => !c.Refused? && IsRow(job, Validating, progress, s)
       case Stopped(failure) => c == Refused(failure) && IsRow(job, Validating, progress, s)
       case Restarted => c == Passed && IsRow(job, Indexing, 0, refreshed)
       case Finalized => false
  }

  /** Where a run of the last stage may stop. */
  ghost predicate CompletingStops(s: Snapshot, live: Snapshot, refreshed: Snapshot, points: Points, progress: nat, job: RebuildJob,
                                  store: QdrantCollection, outcome: Outcome, c: Check, landings: seq<seq<seq<Entry>>>)
    reads job, store
  {
    && InStep(s, store, points, landings, c)
    && (job.succeeded <==> outcome == Finalized)
    && match outcome
       case Finalized => c == Passed && live == s && IsRow(job, Complete, progress, s)
       case Interrupted => !c.Refused? && IsRow(job, Complete, progress, s)
       case Stopped(failure) => c == Refused(failure) && IsRow(job, Complete, progress, s)
       case Restarted => c == Passed && live != s && IsRow(job, Indexing, 0, refreshed)
       case Advanced => false
  }

  /** The row names this stage, this progress and this target. */
  ghost predicate IsRow(job: RebuildJob, stage: Stage, progress: nat, s: Snapshot)
    reads job
  {
    job.stage == stage && job.progress == progress && job.total == PointTotal(s) && job.revision == s.revision
  }

  /** `_validating_stage`, after the snapshot has been matched to the job. */
  method ValidatingStage(job: RebuildJob, store: QdrantCollection, s: Snapshot, refreshed: Snapshot)
    returns (outcome: Outcome, c: Check, ghost landings: seq<seq<seq<Entry>>>)
    requires WellFormed(s)
    requires job.stage == Validating && job.total == PointTotal(s) && job.revision == s.revision
    modifies job, store
    ensures ValidatingStops(s, refreshed, old(store.points), old(job.progress), job, store, outcome, c, landings)
    ensures outcome.Stopped? || outcome.Interrupted? ==> unchanged(job)
    ensures job.succeeded == old(job.succeeded)
  {
    c, landings := ValidateQdrant(store, s);
    if c.Refused? {
      return Stopped(c.failure), c, landings;
    }
    if c != Passed {
      return Interrupted, c, landings;
    }
    var held: bool, current: bool := *, *;
    var r := job.Commit(Complete, PointTotal(s), held, current);
    match r
    case LostLease => outcome := Interrupted;
    case TargetChanged => outcome := ResetTarget(job, refreshed);
    case Committed => outcome := Advanced;
  }

  /** `_reset_after_drift`, under a lease that may be gone by then. */
  method ResetTarget(job: RebuildJob, refreshed: Snapshot) returns (outcome: Outcome)
    modifies job
    ensures outcome == Interrupted ==> unchanged(job)
    ensures outcome == Restarted ==> IsRow(job, Indexing, 0, refreshed) && job.succeeded == old(job.succeeded)
    ensures outcome.Interrupted? || outcome.Restarted?
  {
    var held: bool := *;
    var reset := job.Reset(refreshed, held);
    outcome := if reset == Committed then Restarted else Interrupted;
  }

  /**
   `_complete_stage`: the last validation, then the finalizing commit against the target that is live at
   that moment. Where that one differs, the job restarts on the target that is live when it is reset.
   */
  method CompleteStage(job: RebuildJob, store: QdrantCollection, s: Snapshot, live: Snapshot, refreshed: Snapshot)
    returns (outcome: Outcome, c: Check, ghost landings: seq<seq<seq<Entry>>>)
    requires WellFormed(s)
    requires job.stage == Complete && job.total == PointTotal(s) && job.revision == s.revision && !job.succeeded
    modifies job, store
    ensures CompletingStops(s, live, refreshed, old(store.points), old(job.progress), job, store, outcome, c, landings)
    ensures outcome.Stopped? || outcome.Interrupted? ==> unchanged(job)
  {
    c, landings := ValidateQdrant(store, s);
    if c.Refused? {
      return Stopped(c.failure), c, landings;
    }
    if c != Passed {
      return Interrupted, c, landings;
    }
    var held: bool := *;
    var r := job.Finalize(s, live, held);
    match r
    case LostLease => outcome := Interrupted;
    case TargetChanged => outcome := ResetTarget(job, refreshed);
    case Committed => outcome := Finalized;
  }
}
