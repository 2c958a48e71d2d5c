/** What a cutover writes is what a repair needs. */
module Cutover {
  import opened Prelude
  import opened Content
  import opened GenerationModel
  import opened SagaInvariant
  import opened GenerationSaga

  // ---- _configuration_anchor ---------------------------------------------------------------------

  predicate IsAnchor(m: Mutation, kb: nat, revision: nat, g: GenerationId) {
    m.knowledgeBase == kb && m.revision == revision && Targets(m, g)
  }

  function FindAnchor(log: seq<Mutation>, kb: nat, revision: nat, g: GenerationId): Option<Mutation> {
    if log == [] then None
    else if IsAnchor(log[0], kb, revision, g) then Some(log[0])
    else FindAnchor(log[1..], kb, revision, g)
  }

  predicate PayloadMatches(p: AnchorPayload, id: GenerationId, g: Generation) {
    && p.generation == id
    && p.profile == g.profile
    && p.embeddingHash == g.embeddingHash
    && p.filterRevision == g.filterRevision
    && Some(p.manifestHash) == g.manifestHash
  }

  /** The anchor's identity, or None where the code raises a configuration conflict. */
  function ConfigurationAnchor(db: Database, kb: nat, g: GenerationId): Option<MutationId>
    requires g in db.generations
  {
    var m := FindAnchor(db.mutations, kb, db.generations[g].caughtUp, g);
    if m.None? || !m.value.kind.IndexConfigChanged? || !PayloadMatches(m.value.kind.payload, g, db.generations[g]) then None
    else Some(m.value.id)
  }

  lemma {:induction false} FindAnchorFinds(log: seq<Mutation>, m: Mutation, g: GenerationId)
    requires RevisionsIncrease(log)
    requires m in log && Targets(m, g)
    ensures FindAnchor(log, m.knowledgeBase, m.revision, g) == Some(m)
  {
    if IsAnchor(log[0], m.knowledgeBase, m.revision, g) {
      var i :| 0 <= i < |log| && log[i] == m;
      assert i > 0 ==> Precedes(log[0], log[i]);
    } else {
      forall i, j | 0 <= i < j < |log[1..]| ensures Precedes(log[1..][i], log[1..][j]) {
        assert Precedes(log[i+1], log[j+1]);
      }
      FindAnchorFinds(log[1..], m, g);
    }
  }

  /** In every reachable state the anchor of an activated generation is found and its payload agrees. */
  lemma AnchorAlwaysFound(content: Content, run: seq<Step>, g: GenerationId)
    requires EverActivated(After(content, run).db.generations, g)
    ensures var db := After(content, run).db;
            ConfigurationAnchor(db, db.generations[g].knowledgeBase, g) == Some(ActivationMutation(g, db.generations[g].caughtUp))
  {
    RunKeeps(content, run);
    AnchorFound(After(content, run).db, g);
  }

  lemma AnchorFound(db: Database, g: GenerationId)
    requires Inv(db) && EverActivated(db.generations, g)
    ensures ConfigurationAnchor(db, db.generations[g].knowledgeBase, g) == Some(ActivationMutation(g, db.generations[g].caughtUp))
  {
    assert AnchorLogged(db.mutations, g, db.generations[g]);
    FindAnchorFinds(db.mutations, AnchorOf(g, db.generations[g]), g);
  }

  // ---- enrolment ---------------------------------------------------------------------------------

  predicate Enrols(c: Content, d: Document, kb: nat, g: GenerationId, key: StateKey) {
    Enrollable(c, d, kb) && key == StateKey(d.currentVersion.value, g)
  }

  ghost predicate EnrolledBy(c: Content, rest: seq<Document>, kb: nat, g: GenerationId, key: StateKey) {
    exists i | 0 <= i < |rest| :: Enrols(c, rest[i], kb, g, key)
  }

  /** Exactly the enrolled keys that had no row get one; rows already there are left as they were. */
  lemma {:induction false} EnrolmentExact(c: Content, rest: seq<Document>, kb: nat, g: GenerationId, h: string, now: nat, key: StateKey)
    ensures var states := EnrolFrom(c, rest, kb, g, h, now).0;
            && (key in states <==> key in c.states || EnrolledBy(c, rest, kb, g, key))
            && (key in c.states ==> states[key] == c.states[key])
            && (key !in c.states && EnrolledBy(c, rest, kb, g, key) ==>
                  key.version in c.versions && c.versions[key.version].chunkCount.Some?
                  && states[key] == EnrolledState(c.versions[key.version], h, now))
  {
    if rest != [] {
      var before, d := rest[..|rest|-1], rest[|rest|-1];
      EnrolmentExact(c, before, kb, g, h, now, key);
      if Enrollable(c, d, kb) {
        EnrolmentExact(c, before, kb, g, h, now, StateKey(d.currentVersion.value, g));
      }
      assert EnrolledBy(c, rest, kb, g, key) <==> EnrolledBy(c, before, kb, g, key) || Enrols(c, d, kb, g, key) by {
        assert rest[|before|] == d;
        if EnrolledBy(c, before, kb, g, key) {
          var i :| 0 <= i < |before| && Enrols(c, before[i], kb, g, key);
          assert Enrols(c, rest[i], kb, g, key);
        }
        if EnrolledBy(c, rest, kb, g, key) {
          var i :| 0 <= i < |rest| && Enrols(c, rest[i], kb, g, key);
          assert i < |before| ==> Enrols(c, before[i], kb, g, key);
        }
      }
    }
  }

  /** At least one row is inserted exactly when some live document's row was missing. */
  lemma {:induction false} EnrolmentInserts(c: Content, rest: seq<Document>, kb: nat, g: GenerationId, h: string, now: nat)
    ensures EnrolFrom(c, rest, kb, g, h, now).1 > 0
            <==> exists i | 0 <= i < |rest| :: Enrollable(c, rest[i], kb) && StateKey(rest[i].currentVersion.value, g) !in c.states
  {
    if rest != [] {
      var before, d := rest[..|rest|-1], rest[|rest|-1];
      EnrolmentInserts(c, before, kb, g, h, now);
      if Enrollable(c, d, kb) {
        var key := StateKey(d.currentVersion.value, g);
        EnrolmentExact(c, before, kb, g, h, now, key);
        if key !in c.states && EnrolledBy(c, before, kb, g, key) {
          var i :| 0 <= i < |before| && Enrols(c, before[i], kb, g, key);
          assert Enrollable(c, before[i], kb);
        }
      }
      if EnrolFrom(c, before, kb, g, h, now).1 > 0 {
        var i :| 0 <= i < |before| && Enrollable(c, before[i], kb) && StateKey(before[i].currentVersion.value, g) !in c.states;
        assert Enrollable(c, rest[i], kb);
      } else {
        forall i | 0 <= i < |before| ensures Enrollable(c, rest[i], kb) ==> StateKey(rest[i].currentVersion.value, g) in c.states {
          assert rest[i] == before[i];
        }
      }
      assert rest[|before|] == d;
    }
  }

  // ---- repair after the cutover --------------------------------------------------------------------

  /** What a live document needs before the cutover: a complete version and no stale row for the new generation. */
  predicate ReadyForCutover(c: Content, d: Document, g: GenerationId, h: string) {
    && CompleteVersion(c, d)
    && (StateKey(d.currentVersion.value, g) in c.states ==>
          MatchingState(c.states[StateKey(d.currentVersion.value, g)], c.versions[d.currentVersion.value], h))
  }

  ghost predicate AllReadyForCutover(c: Content, docs: seq<Document>, kb: nat, g: GenerationId, h: string) {
    forall i | 0 <= i < |docs| && Live(docs[i], kb) :: ReadyForCutover(c, docs[i], g, h)
  }

  lemma RepairableAfterEnrolment(c: Content, i: nat, kb: nat, g: GenerationId, h: string, now: nat)
    requires i < |c.documents| && Live(c.documents[i], kb)
    ensures Repairable(Enrol(c, kb, g, h, now).0, c.documents[i], g, h) <==> ReadyForCutover(c, c.documents[i], g, h)
  {
    var d := c.documents[i];
    var after := Enrol(c, kb, g, h, now).0;
    assert CompleteVersion(after, d) == CompleteVersion(c, d);
    if CompleteVersion(c, d) {
      var key := StateKey(d.currentVersion.value, g);
      EnrolmentExact(c, c.documents, kb, g, h, now, key);
      assert Enrols(c, c.documents[i], kb, g, key);
    }
  }

  /** The repair's target loop succeeds exactly when every live document is ready, and then its total is the job's. */
  lemma {:induction false} TargetsAfterEnrolment(c: Content, n: nat, kb: nat, g: GenerationId, h: string, now: nat)
    requires n <= |c.documents|
    ensures var r := CanonicalTargetsOf(Enrol(c, kb, g, h, now).0, c.documents[..n], kb, g, h);
            && (r.Some? <==> AllReadyForCutover(c, c.documents[..n], kb, g, h))
            && (r.Some? ==> r.value.1 == LivePointsOf(c, c.documents[..n], kb))
  {
    if n > 0 {
      var prefix := c.documents[..n];
      assert prefix[..|prefix|-1] == c.documents[..n-1];
      TargetsAfterEnrolment(c, n - 1, kb, g, h, now);
      assert AllReadyForCutover(c, prefix, kb, g, h) <==>
        AllReadyForCutover(c, c.documents[..n-1], kb, g, h) && (Live(c.documents[n-1], kb) ==> ReadyForCutover(c, c.documents[n-1], g, h))
      by {
        forall i | 0 <= i < n - 1 ensures prefix[i] == c.documents[..n-1][i] {}
        assert prefix[n-1] == c.documents[n-1];
      }
      if Live(c.documents[n-1], kb) {
        RepairableAfterEnrolment(c, n - 1, kb, g, h, now);
      }
    }
  }

  /** Some live document has no row for the new generation yet. */
  ghost predicate BackfillNeeded(db: Database, r: Reservation)
    requires RowsPresent(db, r)
  {
    && Supersedes(db, r.key.knowledgeBase)
    && exists i | 0 <= i < |db.content.documents| ::
         && Enrollable(db.content, db.content.documents[i], r.key.knowledgeBase)
         && StateKey(db.content.documents[i].currentVersion.value, r.generation) !in db.content.states
  }

  /** The backfill is queued exactly when some live document was not yet enrolled; the first activation queues none. */
  lemma BackfillQueuedExactly(db: Database, r: Reservation, now: nat)
    requires RowsPresent(db, r)
    requires ActivateOutcomeOf(db, r, 0).Activated?
    ensures Activate(db, r, 0, now).jobs == if BackfillNeeded(db, r) then db.jobs + [BackfillJob(db, r)] else db.jobs
  {
    EnrolmentInserts(db.content, db.content.documents, r.key.knowledgeBase, r.generation,
                     db.generations[r.generation].embeddingHash, now);
  }

  /** What the anchor and the targets of a repair are, right after a superseding activation. */
  lemma RepairAfterCutover(db: Database, r: Reservation, now: nat)
    requires Inv(db)
    requires r.key in db.requests ==> r.generation == StableGeneration(r.key)
    requires ActivateOutcomeOf(db, r, 0).Activated?
    requires Supersedes(db, r.key.knowledgeBase)
    ensures var after := Activate(db, r, 0, now);
            var g := r.generation;
            var h := db.generations[g].embeddingHash;
            var targets := CanonicalTargets(after.content, r.key.knowledgeBase, g, h);
            && after.generations[g].embeddingHash == h
            && after.generations[g].status == Active
            && ConfigurationAnchor(after, r.key.knowledgeBase, g) == Some(BackfillJob(db, r).mutation)
            && (targets.Some? <==> AllReadyForCutover(db.content, db.content.documents, r.key.knowledgeBase, g, h))
            && (targets.Some? ==> targets.value.1 == BackfillJob(db, r).progressTotal)
            && BackfillJob(db, r).targetRevision == after.knowledgeBases[r.key.knowledgeBase].mutationRevision
  {
    var after := Activate(db, r, 0, now);
    var h := db.generations[r.generation].embeddingHash;
    ActivateKeeps(db, r, 0, now);
    PromoteDescribed(db, r, now);
    assert PromotedRow(db, r, r.generation, after.generations[r.generation]);
    AnchorFound(after, r.generation);
    assert RequestExact(db.generations, r.key, db.requests[r.key]);
    TargetsAfterEnrolment(db.content, |db.content.documents|, r.key.knowledgeBase, r.generation, h, now);
    assert db.content.documents[..|db.content.documents|] == db.content.documents;
  }

  /** What a queued job promises a repair that has just loaded the database. */
  ghost predicate RepairCanServe(after: Database, job: Job, ready: bool)
    requires job.knowledgeBase in after.knowledgeBases && job.generation in after.generations
  {
    var targets := CanonicalTargets(after.content, job.knowledgeBase, job.generation, after.generations[job.generation].embeddingHash);
    && after.generations[job.generation].status == Active
    && ConfigurationAnchor(after, job.knowledgeBase, job.generation) == Some(job.mutation)
    && job.targetRevision == after.knowledgeBases[job.knowledgeBase].mutationRevision
    && (targets.Some? <==> ready)
    && (targets.Some? ==> targets.value.1 == job.progressTotal)
  }

  /**
   The cutover theorem. An activation that supersedes another generation adds a row to the job table
   exactly when some live document was not yet enrolled. The row added is for this generation; its
   mutation is the anchor the repair finds; the repair has targets exactly when every live document was
   ready; and then its point total is the row's progress total.
   */
  lemma CutoverMeetsRepair(db: Database, r: Reservation, now: nat)
    requires Inv(db)
    requires r.key in db.requests ==> r.generation == StableGeneration(r.key)
    requires ActivateOutcomeOf(db, r, 0).Activated?
    requires Supersedes(db, r.key.knowledgeBase)
    ensures var jobs := Activate(db, r, 0, now).jobs;
            && db.jobs <= jobs
            && |jobs| == |db.jobs| + (if BackfillNeeded(db, r) then 1 else 0)
    ensures BackfillNeeded(db, r) ==>
              var after := Activate(db, r, 0, now);
              var job := after.jobs[|db.jobs|];
              && job.knowledgeBase == r.key.knowledgeBase && job.generation == r.generation && job.progressCurrent == 0
              && job.knowledgeBase in after.knowledgeBases && job.generation in after.generations
              && RepairCanServe(after, job,
                   AllReadyForCutover(db.content, db.content.documents, r.key.knowledgeBase, r.generation,
                                      db.generations[r.generation].embeddingHash))
  {
    BackfillQueuedExactly(db, r, now);
    RepairAfterCutover(db, r, now);
  }

  // ---- row by row ------------------------------------------------------------------------------------------------

  /** In any database an anchor is a logged change of exactly this generation's configuration at its revision. */
  lemma {:induction false} AnchorMeans(log: seq<Mutation>, kb: nat, revision: nat, g: GenerationId)
    ensures var m := FindAnchor(log, kb, revision, g);
            m.Some? ==> m.value in log && m.value.knowledgeBase == kb && m.value.revision == revision
                        && m.value.kind.IndexConfigChanged? && m.value.kind.target == g
  {
    if log != [] && !IsAnchor(log[0], kb, revision, g) {
      AnchorMeans(log[1..], kb, revision, g);
    }
  }

  lemma ConfigurationAnchorMeans(db: Database, kb: nat, g: GenerationId)
    requires g in db.generations && ConfigurationAnchor(db, kb, g).Some?
    ensures var row := db.generations[g];
            && row.manifestHash.Some?
            && Mutation(ConfigurationAnchor(db, kb, g).value, kb, row.caughtUp,
                        IndexConfigChanged(g, AnchorPayload(g, row.profile, row.embeddingHash, row.filterRevision, row.manifestHash.value)))
               in db.mutations
  {
    AnchorMeans(db.mutations, kb, db.generations[g].caughtUp, g);
  }

  /** A document that counts: of this knowledge base, active, and not deleted. */
  predicate IsLive(d: Document, kb: nat) { d.knowledgeBase == kb && d.active == true && d.deleted == false }

  /** The live document's current version is enrolled: it is ready, with a chunk count and a manifest checksum. */
  predicate EnrolsVersion(c: Content, d: Document, kb: nat, v: VersionId) {
    && IsLive(d, kb) && d.currentVersion == Some(v) && v in c.versions
    && c.versions[v].ready && c.versions[v].chunkCount != None && c.versions[v].manifestChecksum != None
  }

  ghost predicate VersionEnrolled(c: Content, kb: nat, v: VersionId) {
    exists i | 0 <= i < |c.documents| :: EnrolsVersion(c, c.documents[i], kb, v)
  }

  /**
   An enrolment writes a row for a version of a live document if and only if it is ready and complete and has none yet; the row
   says that all its points are there, validated now, under the new embedding. No other row is touched.
   */
  lemma EnrolmentRowByRow(c: Content, kb: nat, g: GenerationId, h: string, now: nat, v: VersionId, other: GenerationId)
    ensures var states, key := Enrol(c, kb, g, h, now).0.states, StateKey(v, other);
            && (key in states <==> key in c.states || (other == g && VersionEnrolled(c, kb, v)))
            && (key in c.states ==> states[key] == c.states[key])
            && (key in states && key !in c.states ==>
                  v in c.versions && c.versions[v].chunkCount.Some?
                  && var row, count := c.versions[v], c.versions[v].chunkCount.value;
                     states[key] == IndexState(true, Some(now), Some(count), Some(count), count, row.manifestChecksum, Some(h)))
  {
    var key := StateKey(v, other);
    EnrolmentExact(c, c.documents, kb, g, h, now, key);
    if EnrolledBy(c, c.documents, kb, g, key) {
      var i :| 0 <= i < |c.documents| && Enrols(c, c.documents[i], kb, g, key);
      assert EnrolsVersion(c, c.documents[i], kb, v);
    }
    if other == g && VersionEnrolled(c, kb, v) {
      var i :| 0 <= i < |c.documents| && EnrolsVersion(c, c.documents[i], kb, v);
      assert Enrols(c, c.documents[i], kb, g, key);
    }
  }

  /** The documents that count, in order. */
  function LiveOf(documents: seq<Document>, kb: nat): seq<Document> {
    if documents == [] then []
    else LiveOf(documents[..|documents|-1], kb) + if IsLive(documents[|documents|-1], kb) then [documents[|documents|-1]] else []
  }

  /** The columns of a document, of its current version and of the version's index state that a repair accepts. */
  predicate RowsAgree(c: Content, d: Document, g: GenerationId, h: string) {
    && d.currentVersion.Some? && d.currentVersion.value in c.versions
    && StateKey(d.currentVersion.value, g) in c.states
    && var v, s := c.versions[d.currentVersion.value], c.states[StateKey(d.currentVersion.value, g)];
       && v.document == d.id && v.sourceChecksum == d.checksum
       && v.ready && v.activated && v.provenance != None && v.manifestChecksum != None
       && v.chunkCount.Some? && v.chunkCount.value > 0
       && s.validated && s.validatedAt != None
       && s.expectedPoints == v.chunkCount && s.actualPoints == v.chunkCount && s.nextChunk == v.chunkCount.value
       && s.manifestChecksum == v.manifestChecksum && s.embeddingHash == Some(h)
  }

  predicate IsTargetOf(c: Content, d: Document, t: Target) {
    && t.document == d.id && d.currentVersion == Some(t.version) && t.version in c.versions
    && c.versions[t.version].chunkCount == Some(t.chunkCount) && c.versions[t.version].manifestChecksum == Some(t.manifestChecksum)
  }

  function ChunkSum(targets: seq<Target>): nat {
    if targets == [] then 0 else ChunkSum(targets[..|targets|-1]) + targets[|targets|-1].chunkCount
  }

  lemma AcceptedRows(c: Content, d: Document, g: GenerationId, h: string)
    ensures Repairable(c, d, g, h) <==> RowsAgree(c, d, g, h)
  {}

  ghost predicate AllAgree(c: Content, live: seq<Document>, g: GenerationId, h: string) {
    forall i | 0 <= i < |live| :: RowsAgree(c, live[i], g, h)
  }

  ghost predicate AreTargetsOf(c: Content, live: seq<Document>, targets: seq<Target>) {
    |targets| == |live| && forall i | 0 <= i < |live| :: IsTargetOf(c, live[i], targets[i])
  }

  lemma AllAgreeAppend(c: Content, live: seq<Document>, d: Document, g: GenerationId, h: string)
    ensures AllAgree(c, live + [d], g, h) <==> AllAgree(c, live, g, h) && RowsAgree(c, d, g, h)
  {
    hide RowsAgree;
    assert (live + [d])[|live|] == d && forall i | 0 <= i < |live| :: (live + [d])[i] == live[i];
  }

  /**
   A repair has targets if and only if the rows of every live document agree; then they are those of the live documents,
   one each and in order, and the point total is the sum of their chunks.
   */
  lemma {:induction false} TargetsExactly(c: Content, documents: seq<Document>, kb: nat, g: GenerationId, h: string)
    ensures var result, live := CanonicalTargetsOf(c, documents, kb, g, h), LiveOf(documents, kb);
            && (result.Some? <==> AllAgree(c, live, g, h))
            && (result.Some? ==> AreTargetsOf(c, live, result.value.0) && result.value.1 == ChunkSum(result.value.0))
  {
    hide Repairable, RowsAgree, IsTargetOf;
    if documents != [] {
      var front, last := documents[..|documents|-1], documents[|documents|-1];
      TargetsExactly(c, front, kb, g, h);
      AcceptedRows(c, last, g, h);
      var before := LiveOf(front, kb);
      AllAgreeAppend(c, before, last, g, h);
      if IsLive(last, kb) {
        assert LiveOf(documents, kb) == before + [last];
        if Repairable(c, last, g, h) && CanonicalTargetsOf(c, front, kb, g, h).Some? {
          TargetIsOf(c, last, g, h);
          var targets := CanonicalTargetsOf(c, front, kb, g, h).value.0;
          assert (targets + [TargetOf(c, last)])[..|targets|] == targets;
        }
      } else {
        assert LiveOf(documents, kb) == before;
      }
    }
  }

  lemma TargetIsOf(c: Content, d: Document, g: GenerationId, h: string)
    requires Repairable(c, d, g, h)
    ensures CompleteVersion(c, d) && IsTargetOf(c, d, TargetOf(c, d))
  {}
}
