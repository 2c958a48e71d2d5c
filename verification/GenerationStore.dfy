/**
 The tables as mutable state, and the saga's transactions as the service runs them: rows fetched,
 fields assigned one after another, the transaction committed at the end or rolled back by an
 early return. Every method is proved equal to its transaction function in GenerationModel.
 */
module GenerationStore {
  import opened Prelude
  import opened Content
  import opened GenerationModel

  class Store {
    var knowledgeBases: map<nat, KnowledgeBase>
    var generations: map<GenerationId, Generation>
    var requests: map<CreationKey, CreationRequest>
    var claims: map<Collection, CleanupClaim>
    var mutations: seq<Mutation>
    var jobs: seq<Job>
    var content: Content

    ghost function Db(): Database
      reads this
    {
      Database(knowledgeBases, generations, requests, claims, mutations, jobs, content)
    }

    constructor (content: Content)
      ensures Db() == Database(map[], map[], map[], map[], [], [], content)
    {
      this.content := content;
      knowledgeBases, generations, requests, claims := map[], map[], map[], map[];
      mutations, jobs := [], [];
    }

    /** The assignments every failing branch makes: generation, pending pointer, request. */
    method RecordFailure(kb: nat, key: CreationKey, g: GenerationId, error: Error)
      requires kb in knowledgeBases && key in requests && g in generations
      modifies this
      ensures Db() == FailCreation(old(Db()), kb, key, g, error)
    {
      generations := generations[g := generations[g].(status := Failed)];
      generations := generations[g := generations[g].(error := Some(error))];
      if knowledgeBases[kb].pending == Some(g) {
        knowledgeBases := knowledgeBases[kb := knowledgeBases[kb].(pending := None)];
      }
      requests := requests[key := requests[key].(state := RequestFailed(error))];
      ghost var failed := FailCreation(old(Db()), kb, key, g, error);
      assert generations == failed.generations;
      assert knowledgeBases == failed.knowledgeBases;
    }

    method ReserveGeneration(key: CreationKey, command: Command, check: ConfigurationCheck) returns (outcome: ReserveOutcome)
      modifies this
      ensures outcome == ReserveOutcomeOf(old(Db()), key, command, check)
      ensures Db() == Reserve(old(Db()), key, command, check)
    {
      var kbId := key.knowledgeBase;
      if kbId !in knowledgeBases { return Refused(NotFound); }
      if key in requests {
        outcome := ReplayRequest(key, command, check);
        return;
      }
      var kb := knowledgeBases[kbId];
      if kb.status != KbActive { return Refused(ConfigurationConflict); }
      var building := BuildingGenerationExists(kbId);
      if kb.pending.Some? || building { return Refused(AlreadyConfigured); }
      if check.Unusable? { return Refused(check.error); }
      var g := StableGeneration(key);
      var collection := Collection(kbId, g);
      if collection in claims {
        if claims[collection].completed { return Refused(CollectionRetired); }
        return Refused(CleanupInProgress);
      }
      if g in generations { return Refused(Internal); }
      requests := requests[key := CreationRequest(command, g, RequestBuilding)];
      generations := generations[g := NewGeneration(kb, key, command, check.embeddingHash)];
      knowledgeBases := knowledgeBases[kbId := kb.(pending := Some(g))];
      outcome := Reserved(Reservation(key, g, kb.filterRevision));
    }

    method ReplayRequest(key: CreationKey, command: Command, check: ConfigurationCheck) returns (outcome: ReserveOutcome)
      requires key.knowledgeBase in knowledgeBases && key in requests
      modifies this
      ensures outcome == ReplayOutcome(old(Db()), key, command, check)
      ensures Db() == if outcome.Terminal? then FailCreation(old(Db()), key.knowledgeBase, key, old(requests)[key].generation, outcome.error)
                      else old(Db())
    {
      var kbId := key.knowledgeBase;
      var existing := requests[key];
      if existing.fingerprint != command { return Refused(KeyReused); }
      var g := existing.generation;
      if g !in generations { return Refused(Internal); }
      var collection := Collection(generations[g].knowledgeBase, g);
      if collection in claims {
        if !claims[collection].completed { return Refused(CleanupInProgress); }
        if existing.state.Succeeded? || generations[g].status == Active { return Refused(Internal); }
        if existing.state.RequestFailed? { return Refused(CollectionRetired); }
        RecordFailure(kbId, key, g, CollectionRetired);
        return Terminal(CollectionRetired);
      }
      if existing.state.RequestFailed? { return Refused(existing.state.error); }
      if existing.state.Succeeded? {
        if generations[g].status != Active { return Refused(Internal); }
        return Replayed(g);
      }
      if knowledgeBases[kbId].status != KbActive {
        RecordFailure(kbId, key, g, ConfigurationConflict);
        return Terminal(ConfigurationConflict);
      }
      if check.Unusable? {
        RecordFailure(kbId, key, g, check.error);
        return Terminal(check.error);
      }
      outcome := Reserved(Reservation(key, g, generations[g].filterRevision));
    }

    /** building_generation_exists, as a scan of the rows. */
    method BuildingGenerationExists(kb: nat) returns (found: bool)
      ensures found <==> BuildingExists(Db(), kb)
    {
      var rest := generations.Keys;
      while rest != {}
        invariant rest <= generations.Keys
        invariant forall g | g in generations.Keys - rest ::
                    !(generations[g].knowledgeBase == kb && generations[g].status == Building)
        decreases |rest|
      {
        var g :| g in rest;
        if generations[g].knowledgeBase == kb && generations[g].status == Building { return true; }
        rest := rest - {g};
      }
      found := false;
    }

    method MarkGenerationFailed(r: Reservation, error: Error, actualPoints: Option<nat>) returns (ok: bool)
      modifies this
      ensures ok <==> RowsPresent(old(Db()), r)
      ensures Db() == MarkFailed(old(Db()), r, error, actualPoints)
    {
      if !(r.key.knowledgeBase in knowledgeBases && r.generation in generations && r.key in requests) { return false; }
      if requests[r.key].state.Succeeded? || generations[r.generation].status == Active { return true; }
      RecordFailure(r.key.knowledgeBase, r.key, r.generation, error);
      if actualPoints.Some? {
        generations := generations[r.generation := generations[r.generation].(expectedPoints := Some(0))];
        generations := generations[r.generation := generations[r.generation].(actualPoints := actualPoints)];
      }
      ok := true;
    }

    method ActivateGeneration(r: Reservation, actualPoints: nat, now: nat) returns (outcome: ActivateOutcome)
      modifies this
      ensures outcome == ActivateOutcomeOf(old(Db()), r, actualPoints)
      ensures Db() == Activate(old(Db()), r, actualPoints, now)
    {
      if actualPoints != 0 { return ActivateRefused(Internal); }
      var kbId, g := r.key.knowledgeBase, r.generation;
      if !(kbId in knowledgeBases && g in generations && r.key in requests) { return ActivateRefused(Internal); }
      var request := requests[r.key];
      var claimed := r.Target() in claims;
      if claimed && !claims[r.Target()].completed { return ActivateRefused(CleanupInProgress); }
      if claimed {
        if request.state.Succeeded? || generations[g].status == Active { return ActivateRefused(Internal); }
        RecordFailure(kbId, r.key, g, CollectionRetired);
        return Conflict(CollectionRetired);
      }
      if request.state.Succeeded? && generations[g].status == Active { return AlreadyActive(g); }
      if request.state.RequestFailed? { return ActivateRefused(request.state.error); }
      var kb := knowledgeBases[kbId];
      if generations[g].status != Building || kb.status != KbActive || kb.pending != Some(g)
         || kb.active == Some(g) || kb.filterRevision != r.filterRevision {
        RecordFailure(kbId, r.key, g, ConfigurationConflict);
        return Conflict(ConfigurationConflict);
      }
      SwapGenerations(r, now);
      outcome := Activated(g);
    }

    /** The committing branch of `_activate`, assignment by assignment. */
    method SwapGenerations(r: Reservation, now: nat)
      requires RowsPresent(Db(), r)
      requires knowledgeBases[r.key.knowledgeBase].active != Some(r.generation)
      modifies this
      ensures Db() == Promote(old(Db()), r, now)
    {
      hide EnrolFrom, LivePointsOf;
      var kbId, g := r.key.knowledgeBase, r.generation;
      var kb := knowledgeBases[kbId];
      var revision := kb.mutationRevision + 1;
      var hash := ManifestHash(kbId, g, revision, 0);
      generations := generations[g := generations[g].(
        caughtUp := revision, validated := Some(revision), expectedPoints := Some(0), actualPoints := Some(0),
        manifestHash := Some(hash), error := None)];
      knowledgeBases := knowledgeBases[kbId := kb.(mutationRevision := revision)];
      var row := generations[g];
      var mutation := ActivationMutation(g, revision);
      mutations := mutations + [Mutation(mutation, kbId, revision,
        IndexConfigChanged(g, AnchorPayload(g, row.profile, row.embeddingHash, row.filterRevision, hash)))];
      ghost var promoted := Promote(old(Db()), r, now);
      assert mutations == promoted.mutations;
      RetireSuperseded(kb.active, r, row.embeddingHash, revision, now);
      assert content == promoted.content && jobs == promoted.jobs;
      generations := generations[g := generations[g].(status := Active)];
      knowledgeBases := knowledgeBases[kbId := knowledgeBases[kbId].(pending := None)];
      knowledgeBases := knowledgeBases[kbId := knowledgeBases[kbId].(active := Some(g))];
      requests := requests[r.key := requests[r.key].(state := Succeeded)];
      assert generations == promoted.generations;
      assert knowledgeBases == promoted.knowledgeBases;
    }

    /** Retire the superseded generation, enrol its documents into the new one, queue the backfill. */
    method RetireSuperseded(active: Option<GenerationId>, r: Reservation, embeddingHash: string, revision: nat, now: nat)
      modifies this`generations, this`content, this`jobs
      ensures var superseded := active.Some? && active.value in old(generations);
              var (enrolledContent, enrolled) :=
                if superseded then Enrol(old(content), r.key.knowledgeBase, r.generation, embeddingHash, now) else (old(content), 0);
              && generations == (if superseded then old(generations)[active.value := old(generations)[active.value].(status := Retiring)]
                                 else old(generations))
              && content == enrolledContent
              && jobs == old(jobs) + (if enrolled == 0 then [] else
                   [Job(r.key.knowledgeBase, r.generation, revision, ActivationMutation(r.generation, revision), 0,
                        LivePointTotal(old(content), r.key.knowledgeBase))])
    {
      if active.Some? && active.value in generations {
        generations := generations[active.value := generations[active.value].(status := Retiring)];
        var enrolled := EnrolLiveVersions(r.key.knowledgeBase, r.generation, embeddingHash, now);
        if enrolled > 0 {
          var points := LivePointTotalOf(r.key.knowledgeBase);
          LivePointsIgnoreStates(old(content), content.states, content.documents, r.key.knowledgeBase);
          jobs := jobs + [Job(r.key.knowledgeBase, r.generation, revision, ActivationMutation(r.generation, revision), 0, points)];
        }
      }
    }

    /** INSERT ... SELECT ... ON CONFLICT DO NOTHING: one row per live document, in id order. */
    method EnrolLiveVersions(kb: nat, g: GenerationId, embeddingHash: string, now: nat) returns (inserted: nat)
      modifies this`content
      ensures (content, inserted) == Enrol(old(content), kb, g, embeddingHash, now)
    {
      inserted := 0;
      var documents := content.documents;
      ghost var before := content;
      assert documents[..0] == [];
      for i := 0 to |documents|
        invariant content == before.(states := EnrolFrom(before, documents[..i], kb, g, embeddingHash, now).0)
        invariant inserted == EnrolFrom(before, documents[..i], kb, g, embeddingHash, now).1
      {
        assert documents[..i+1][..|documents[..i+1]|-1] == documents[..i];
        var d := documents[i];
        if Enrollable(content, d, kb) {
          var key := StateKey(d.currentVersion.value, g);
          if key !in content.states {
            content := content.(states := content.states[key := EnrolledState(content.versions[d.currentVersion.value], embeddingHash, now)]);
            inserted := inserted + 1;
          }
        }
      }
      assert documents[..|documents|] == documents;
    }

    /** SELECT coalesce(sum(chunk_count), 0) over the live documents. */
    method LivePointTotalOf(kb: nat) returns (total: nat)
      ensures total == LivePointTotal(content, kb)
    {
      total := 0;
      var documents := content.documents;
      assert documents[..0] == [];
      for i := 0 to |documents|
        invariant total == LivePointsOf(content, documents[..i], kb)
      {
        assert documents[..i+1][..|documents[..i+1]|-1] == documents[..i];
        total := total + LivePoints(content, documents[i], kb);
      }
      assert documents[..|documents|] == documents;
    }

    method AbandonGeneration(kb: nat, g: GenerationId) returns (error: Option<Error>)
      modifies this
      ensures error == AbandonError(old(Db()), kb, g)
      ensures Db() == Abandon(old(Db()), kb, g)
    {
      if kb !in knowledgeBases { return Some(NotFound); }
      if g !in generations || generations[g].knowledgeBase != kb { return Some(NotFound); }
      if generations[g].status != Building { return Some(NotAbandonable); }
      generations := generations[g := generations[g].(status := Failed, error := Some(Abandoned))];
      if knowledgeBases[kb].pending == Some(g) {
        knowledgeBases := knowledgeBases[kb := knowledgeBases[kb].(pending := None)];
      }
      error := None;
    }

    method ClaimOrphanCleanup(c: Collection, owner: nat, now: nat, duration: nat) returns (ticket: Option<ClaimTicket>)
      modifies this`claims
      ensures ticket == ClaimResult(old(Db()), c, owner, now)
      ensures Db() == Claim(old(Db()), c, owner, now, duration)
    {
      var known := c.generation in generations && generations[c.generation].knowledgeBase == c.knowledgeBase;
      if known && generations[c.generation].status != Failed { return None; }
      if c !in claims {
        claims := claims[c := CleanupClaim(owner, 1, now + duration, false)];
        return Some(ClaimTicket(c, owner, 1));
      }
      var current := claims[c];
      if current.completed || current.expires > now { return None; }
      claims := claims[c := current.(owner := owner)];
      claims := claims[c := claims[c].(epoch := current.epoch + 1)];
      claims := claims[c := claims[c].(expires := now + duration)];
      ticket := Some(ClaimTicket(c, owner, current.epoch + 1));
    }

    method AuthorizeOrphanCleanup(t: ClaimTicket, now: nat) returns (authorized: bool)
      modifies this`claims
      ensures authorized == Authorized(old(Db()), t, now)
      ensures Db() == Authorize(old(Db()), t, now)
    {
      if t.collection !in claims { return false; }
      var current := claims[t.collection];
      if current.completed || current.owner != t.owner || current.epoch != t.epoch || current.expires <= now { return false; }
      var g := t.collection.generation;
      var known := g in generations && generations[g].knowledgeBase == t.collection.knowledgeBase;
      if !known || generations[g].status == Failed { return true; }
      claims := claims - {t.collection};
      authorized := false;
    }

    method CompleteOrphanCleanup(t: ClaimTicket) returns (completed: bool)
      modifies this`claims
      ensures completed == Holds(old(Db()), t)
      ensures Db() == Complete(old(Db()), t)
    {
      completed := t.collection in claims && claims[t.collection].owner == t.owner
                   && claims[t.collection].epoch == t.epoch && !claims[t.collection].completed;
      if completed {
        claims := claims[t.collection := claims[t.collection].(completed := true)];
      }
    }

    method ExpireOrphanCleanup(t: ClaimTicket, now: nat) returns (expired: bool)
      modifies this`claims
      ensures expired == Holds(old(Db()), t)
      ensures Db() == Expire(old(Db()), t, now)
    {
      expired := t.collection in claims && claims[t.collection].owner == t.owner
                 && claims[t.collection].epoch == t.epoch && !claims[t.collection].completed;
      if expired {
        claims := claims[t.collection := claims[t.collection].(expires := now)];
      }
    }
  }
}
