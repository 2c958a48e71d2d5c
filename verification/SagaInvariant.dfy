/** The inductive invariant of the saga's rows, and its preservation by every transaction. */
module SagaInvariant {
  import opened Prelude
  import opened Content
  import opened GenerationModel

  // ---- the invariant ------------------------------------------------------------------------

  type KnowledgeBases = map<nat, KnowledgeBase>
  type Generations = map<GenerationId, Generation>
  type Requests = map<CreationKey, CreationRequest>

  predicate Names(generations: Generations, kb: nat, pointer: Option<GenerationId>, status: GenerationStatus) {
    pointer.Some? ==>
      pointer.value in generations
      && generations[pointer.value].knowledgeBase == kb
      && generations[pointer.value].status == status
  }

  predicate Named(bases: KnowledgeBases, g: GenerationId, row: Generation) {
    && row.knowledgeBase in bases
    && (row.status == Building ==> bases[row.knowledgeBase].pending == Some(g))
    && (row.status == Active ==> bases[row.knowledgeBase].active == Some(g))
  }

  /** The pending pointer names exactly the building generation, the active pointer exactly the active one. */
  ghost predicate PointersExact(bases: KnowledgeBases, generations: Generations) {
    && (forall kb | kb in bases :: Names(generations, kb, bases[kb].pending, Building))
    && (forall kb | kb in bases :: Names(generations, kb, bases[kb].active, Active))
    && (forall g | g in generations :: Named(bases, g, generations[g]))
  }

  predicate RequestMatches(state: RequestState, status: GenerationStatus) {
    && (state.Succeeded? <==> status == Active || status == Retiring)
    && (state.RequestFailed? ==> status == Failed)
  }

  predicate RequestExact(generations: Generations, key: CreationKey, row: CreationRequest) {
    && row.generation == StableGeneration(key)
    && StableGeneration(key) in generations
    && generations[StableGeneration(key)].knowledgeBase == key.knowledgeBase
    && RequestMatches(row.state, generations[StableGeneration(key)].status)
  }

  predicate Requested(requests: Requests, g: GenerationId) {
    g.StableGeneration? && g.origin in requests
  }

  /** Requests and generations are in one-to-one correspondence, with agreeing states. */
  ghost predicate RequestsExact(requests: Requests, generations: Generations) {
    && (forall key | key in requests :: RequestExact(generations, key, requests[key]))
    && (forall g | g in generations :: Requested(requests, g))
  }

  /** A collection under a cleanup claim, completed or not, has no generation or a failed one. */
  ghost predicate ClaimsSafe(db: Database) {
    forall c | c in db.claims :: Deletable(db, c)
  }

  predicate Targets(m: Mutation, g: GenerationId) { m.kind.IndexConfigChanged? && m.kind.target == g }

  function Activations(log: seq<Mutation>, g: GenerationId): nat {
    if log == [] then 0
    else Activations(log[..|log|-1], g) + (if Targets(log[|log|-1], g) then 1 else 0)
  }

  function Backfills(jobs: seq<Job>, g: GenerationId): nat {
    if jobs == [] then 0
    else Backfills(jobs[..|jobs|-1], g) + (if jobs[|jobs|-1].generation == g then 1 else 0)
  }

  predicate EverActivated(generations: Generations, g: GenerationId) {
    g in generations && generations[g].validated.Some?
  }

  predicate ValidatedMatches(g: Generation) {
    && (g.status == Active || g.status == Retiring ==> g.validated.Some?)
    && (g.status == Building ==> g.validated.None?)
    && (g.validated.Some? ==> g.caughtUp == g.validated.value && g.manifestHash.Some?)
  }

  predicate CountsMatch(log: seq<Mutation>, jobs: seq<Job>, generations: Generations, g: GenerationId) {
    && Activations(log, g) == (if EverActivated(generations, g) then 1 else 0)
    && Backfills(jobs, g) <= Activations(log, g)
  }

  /** One logged configuration change per activated generation and at most one backfill job. */
  ghost predicate ActivationsCounted(log: seq<Mutation>, jobs: seq<Job>, generations: Generations) {
    && (forall g :: CountsMatch(log, jobs, generations, g))
    && (forall g | g in generations :: ValidatedMatches(generations[g]))
  }

  predicate Precedes(a: Mutation, b: Mutation) {
    a.knowledgeBase == b.knowledgeBase ==> a.revision < b.revision
  }

  predicate Logged(bases: KnowledgeBases, m: Mutation) {
    m.knowledgeBase in bases && 1 <= m.revision <= bases[m.knowledgeBase].mutationRevision
  }

  /** Revisions are positive and bounded by their knowledge base's counter. */
  ghost predicate RevisionsBounded(log: seq<Mutation>, bases: KnowledgeBases) {
    forall i | 0 <= i < |log| :: Logged(bases, log[i])
  }

  /** Revisions of one knowledge base increase along the log, so they are unique. */
  ghost predicate RevisionsIncrease(log: seq<Mutation>) {
    forall i, j | 0 <= i < j < |log| :: Precedes(log[i], log[j])
  }

  function AnchorOf(id: GenerationId, g: Generation): Mutation
    requires g.manifestHash.Some?
  {
    Mutation(ActivationMutation(id, g.caughtUp), g.knowledgeBase, g.caughtUp,
             IndexConfigChanged(id, AnchorPayload(id, g.profile, g.embeddingHash, g.filterRevision, g.manifestHash.value)))
  }

  predicate AnchorLogged(log: seq<Mutation>, id: GenerationId, g: Generation) {
    g.validated.Some? ==> g.manifestHash.Some? && AnchorOf(id, g) in log
  }

  /** Every activated generation keeps the mutation `_configuration_anchor` looks for. */
  ghost predicate Anchored(log: seq<Mutation>, generations: Generations) {
    forall g | g in generations :: AnchorLogged(log, g, generations[g])
  }

  ghost predicate Inv(db: Database) {
    && PointersExact(db.knowledgeBases, db.generations)
    && RequestsExact(db.requests, db.generations)
    && ClaimsSafe(db)
    && ActivationsCounted(db.mutations, db.jobs, db.generations)
    && RevisionsBounded(db.mutations, db.knowledgeBases)
    && RevisionsIncrease(db.mutations)
    && Anchored(db.mutations, db.generations)
  }

  function EmptyDatabase(content: Content): Database {
    Database(map[], map[], map[], map[], [], [], content)
  }

  lemma EmptyDatabaseInv(content: Content)
    ensures Inv(EmptyDatabase(content))
  {}

  // ---- the effect every failure shares --------------------------------------------------------

  /** Rewriting rows without touching who was ever activated keeps the counts. */
  lemma CountsCarry(db: Database, generations: Generations)
    requires ActivationsCounted(db.mutations, db.jobs, db.generations)
    requires forall g :: EverActivated(generations, g) <==> EverActivated(db.generations, g)
    requires forall g | g in generations :: ValidatedMatches(generations[g])
    ensures ActivationsCounted(db.mutations, db.jobs, generations)
  {
    forall g ensures CountsMatch(db.mutations, db.jobs, generations, g) {
      assert CountsMatch(db.mutations, db.jobs, db.generations, g);
    }
  }

  /** The row updates `abandon_generation` makes and every failure shares. */
  function FailRow(db: Database, kb: nat, g: GenerationId, error: Error): Database
    requires kb in db.knowledgeBases && g in db.generations
  {
    db.(knowledgeBases := db.knowledgeBases[kb := WithoutPending(db.knowledgeBases[kb], g)],
        generations := db.generations[g := db.generations[g].(status := Failed, error := Some(error))])
  }

  lemma FailRowKeepsPointers(db: Database, kb: nat, g: GenerationId, error: Error)
    requires PointersExact(db.knowledgeBases, db.generations)
    requires g in db.generations && db.generations[g].knowledgeBase == kb && db.generations[g].status != Active
    requires kb in db.knowledgeBases
    ensures PointersExact(FailRow(db, kb, g, error).knowledgeBases, FailRow(db, kb, g, error).generations)
  {
    var after := FailRow(db, kb, g, error);
    forall h | h in after.generations ensures Named(after.knowledgeBases, h, after.generations[h]) {
      assert Named(db.knowledgeBases, h, db.generations[h]);
    }
    forall k | k in after.knowledgeBases
      ensures Names(after.generations, k, after.knowledgeBases[k].pending, Building)
      ensures Names(after.generations, k, after.knowledgeBases[k].active, Active)
    {
      assert Names(db.generations, k, db.knowledgeBases[k].pending, Building);
      assert Names(db.generations, k, db.knowledgeBases[k].active, Active);
    }
  }

  lemma FailRowKeepsRest(db: Database, kb: nat, g: GenerationId, error: Error)
    requires Inv(db)
    requires g in db.generations && kb in db.knowledgeBases
    ensures var after := FailRow(db, kb, g, error);
            && ClaimsSafe(after)
            && ActivationsCounted(after.mutations, after.jobs, after.generations)
            && RevisionsBounded(after.mutations, after.knowledgeBases)
            && Anchored(after.mutations, after.generations)
  {
    var after := FailRow(db, kb, g, error);
    CountsCarry(db, after.generations);
    forall i | 0 <= i < |after.mutations| ensures Logged(after.knowledgeBases, after.mutations[i]) {
      assert Logged(db.knowledgeBases, db.mutations[i]);
    }
    forall h | h in after.generations ensures AnchorLogged(after.mutations, h, after.generations[h]) {
      assert AnchorLogged(db.mutations, h, db.generations[h]);
    }
  }

  lemma FailCreationKeeps(db: Database, kb: nat, key: CreationKey, error: Error)
    requires Inv(db)
    requires key in db.requests && kb == key.knowledgeBase
    requires db.generations[StableGeneration(key)].status != Active
    ensures Inv(FailCreation(db, kb, key, StableGeneration(key), error))
  {
    var g := StableGeneration(key);
    assert RequestExact(db.generations, key, db.requests[key]);
    assert Named(db.knowledgeBases, g, db.generations[g]);
    FailRowKeepsPointers(db, kb, g, error);
    FailRowKeepsRest(db, kb, g, error);
    FailCreationKeepsRequests(db, kb, key, error);
    FailCreationKeepsClaims(db, kb, key, error);
    hide ClaimsSafe, PointersExact, RequestsExact, ActivationsCounted, RevisionsBounded, Anchored;
  }

  lemma FailCreationKeepsRequests(db: Database, kb: nat, key: CreationKey, error: Error)
    requires RequestsExact(db.requests, db.generations)
    requires key in db.requests && kb in db.knowledgeBases && db.generations[StableGeneration(key)].status != Active
    ensures var after := FailCreation(db, kb, key, StableGeneration(key), error); RequestsExact(after.requests, after.generations)
  {
    var after := FailCreation(db, kb, key, StableGeneration(key), error);
    forall k | k in after.requests ensures RequestExact(after.generations, k, after.requests[k]) {
      assert RequestExact(db.generations, k, db.requests[k]);
    }
    forall g | g in after.generations ensures Requested(after.requests, g) {
      assert Requested(db.requests, g);
    }
  }

  lemma FailCreationKeepsClaims(db: Database, kb: nat, key: CreationKey, error: Error)
    requires ClaimsSafe(db) && key in db.requests && kb in db.knowledgeBases && StableGeneration(key) in db.generations
    ensures ClaimsSafe(FailCreation(db, kb, key, StableGeneration(key), error))
  {
    var after := FailCreation(db, kb, key, StableGeneration(key), error);
    forall c | c in after.claims ensures Deletable(after, c) {
      assert Deletable(db, c);
    }
  }

  lemma AbandonKeeps(db: Database, kb: nat, g: GenerationId)
    requires Inv(db)
    ensures Inv(Abandon(db, kb, g))
  {
    if AbandonError(db, kb, g).None? {
      FailRowKeepsPointers(db, kb, g, Abandoned);
      FailRowKeepsRest(db, kb, g, Abandoned);
      var after := Abandon(db, kb, g);
      forall k | k in after.requests ensures RequestExact(after.generations, k, after.requests[k]) {
        assert RequestExact(db.generations, k, db.requests[k]);
      }
    }
  }

  // ---- reservation ------------------------------------------------------------------------------

  ghost predicate Reservable(db: Database, key: CreationKey) {
    && Inv(db)
    && key.knowledgeBase in db.knowledgeBases && key !in db.requests
    && db.knowledgeBases[key.knowledgeBase].pending.None?
    && StableGeneration(key) !in db.generations
    && Collection(key.knowledgeBase, StableGeneration(key)) !in db.claims
  }

  lemma NewRequestKeeps(db: Database, key: CreationKey, command: Command, embeddingHash: string)
    requires Reservable(db, key)
    ensures Inv(NewRequest(db, key, command, embeddingHash))
  {
    NewRequestKeepsNames(db, key, command, embeddingHash);
    NewRequestKeepsRows(db, key, command, embeddingHash);
    NewRequestKeepsLog(db, key, command, embeddingHash);
    hide PointersExact, RequestsExact, ClaimsSafe, ActivationsCounted, RevisionsBounded, Anchored;
  }

  lemma NewRequestKeepsLog(db: Database, key: CreationKey, command: Command, embeddingHash: string)
    requires Reservable(db, key)
    ensures var after := NewRequest(db, key, command, embeddingHash);
            && ActivationsCounted(after.mutations, after.jobs, after.generations)
            && RevisionsBounded(after.mutations, after.knowledgeBases) && Anchored(after.mutations, after.generations)
  {
    var after := NewRequest(db, key, command, embeddingHash);
    CountsCarry(db, after.generations);
    hide PointersExact, RequestsExact, ClaimsSafe;
    forall i | 0 <= i < |after.mutations| ensures Logged(after.knowledgeBases, after.mutations[i]) {
      assert Logged(db.knowledgeBases, db.mutations[i]);
    }
    forall g | g in after.generations ensures AnchorLogged(after.mutations, g, after.generations[g]) {
      assert g in db.generations ==> AnchorLogged(db.mutations, g, db.generations[g]);
    }
  }

  lemma NewRequestKeepsRows(db: Database, key: CreationKey, command: Command, embeddingHash: string)
    requires Reservable(db, key)
    ensures var after := NewRequest(db, key, command, embeddingHash);
            RequestsExact(after.requests, after.generations) && ClaimsSafe(after)
  {
    var after := NewRequest(db, key, command, embeddingHash);
    hide PointersExact, ActivationsCounted, RevisionsBounded, RevisionsIncrease, Anchored;
    forall k | k in after.requests ensures RequestExact(after.generations, k, after.requests[k]) {
      assert k in db.requests ==> RequestExact(db.generations, k, db.requests[k]);
    }
    forall g | g in after.generations ensures Requested(after.requests, g) {
      assert g in db.generations ==> Requested(db.requests, g);
    }
    forall c | c in after.claims ensures Deletable(after, c) { assert Deletable(db, c); }
  }

  lemma NewRequestKeepsNames(db: Database, key: CreationKey, command: Command, embeddingHash: string)
    requires Reservable(db, key)
    ensures var after := NewRequest(db, key, command, embeddingHash); PointersExact(after.knowledgeBases, after.generations)
  {
    var after := NewRequest(db, key, command, embeddingHash);
    hide ClaimsSafe, ActivationsCounted, RevisionsBounded, RevisionsIncrease, Anchored;
    forall g | g in after.generations ensures Named(after.knowledgeBases, g, after.generations[g]) {
      assert g in db.generations ==> Named(db.knowledgeBases, g, db.generations[g]);
    }
    forall kb | kb in after.knowledgeBases
      ensures Names(after.generations, kb, after.knowledgeBases[kb].pending, Building)
      ensures Names(after.generations, kb, after.knowledgeBases[kb].active, Active)
    {
      assert Names(db.generations, kb, db.knowledgeBases[kb].pending, Building);
      assert Names(db.generations, kb, db.knowledgeBases[kb].active, Active);
    }
  }

  lemma ReserveKeeps(db: Database, key: CreationKey, command: Command, check: ConfigurationCheck)
    requires Inv(db)
    ensures Inv(Reserve(db, key, command, check))
  {
    var outcome := ReserveOutcomeOf(db, key, command, check);
    if outcome.Terminal? {
      assert RequestExact(db.generations, key, db.requests[key]);
      FailCreationKeeps(db, key.knowledgeBase, key, outcome.error);
    } else if outcome.Reserved? && key !in db.requests {
      assert Reservable(db, key);
      NewRequestKeeps(db, key, command, check.embeddingHash);
    }
  }

  lemma MarkFailedKeeps(db: Database, r: Reservation, error: Error, actualPoints: Option<nat>)
    requires Inv(db)
    requires r.key in db.requests ==> r.generation == StableGeneration(r.key)
    ensures Inv(MarkFailed(db, r, error, actualPoints))
  {
    if MarkFailedApplies(db, r) {
      FailCreationKeeps(db, r.key.knowledgeBase, r.key, error);
      if actualPoints.Some? {
        RecordPointsKeeps(FailCreation(db, r.key.knowledgeBase, r.key, r.generation, error), r.generation, actualPoints);
      }
    }
  }

  predicate SameButPoints(a: Generation, b: Generation) {
    b == a.(expectedPoints := b.expectedPoints, actualPoints := b.actualPoints)
  }

  /** Point counts in the generation rows are invisible to the invariant. */
  lemma RecordPointsKeeps(db: Database, g: GenerationId, actualPoints: Option<nat>)
    requires Inv(db) && g in db.generations
    ensures Inv(db.(generations := db.generations[g := db.generations[g].(expectedPoints := Some(0), actualPoints := actualPoints)]))
  {
    var generations := db.generations[g := db.generations[g].(expectedPoints := Some(0), actualPoints := actualPoints)];
    assert forall h | h in generations :: SameButPoints(db.generations[h], generations[h]);
    PointsKeepInv(db, generations);
  }

  lemma PointsKeepInv(db: Database, generations: Generations)
    requires Inv(db) && generations.Keys == db.generations.Keys
    requires forall h | h in generations :: SameButPoints(db.generations[h], generations[h])
    ensures Inv(db.(generations := generations))
  {
    PointsKeepRows(db, generations);
    PointsKeepRequests(db, generations);
    PointsKeepCounts(db, generations);
    hide RevisionsIncrease, RevisionsBounded, ActivationsCounted, Anchored, ClaimsSafe, PointersExact, RequestsExact;
  }

  lemma PointsKeepRows(db: Database, generations: Generations)
    requires PointersExact(db.knowledgeBases, db.generations) && ClaimsSafe(db) && generations.Keys == db.generations.Keys
    requires forall h | h in generations :: SameButPoints(db.generations[h], generations[h])
    ensures PointersExact(db.knowledgeBases, generations) && ClaimsSafe(db.(generations := generations))
  {
    forall kb | kb in db.knowledgeBases
      ensures Names(generations, kb, db.knowledgeBases[kb].pending, Building)
      ensures Names(generations, kb, db.knowledgeBases[kb].active, Active)
    {
      assert Names(db.generations, kb, db.knowledgeBases[kb].pending, Building);
      assert Names(db.generations, kb, db.knowledgeBases[kb].active, Active);
    }
    forall h | h in generations ensures Named(db.knowledgeBases, h, generations[h]) {
      assert Named(db.knowledgeBases, h, db.generations[h]) && SameButPoints(db.generations[h], generations[h]);
    }
    forall c | c in db.claims ensures Deletable(db.(generations := generations), c) {
      assert Deletable(db, c);
      assert c.generation in generations ==> SameButPoints(db.generations[c.generation], generations[c.generation]);
    }
  }

  lemma PointsKeepRequests(db: Database, generations: Generations)
    requires RequestsExact(db.requests, db.generations) && generations.Keys == db.generations.Keys
    requires forall h | h in generations :: SameButPoints(db.generations[h], generations[h])
    ensures RequestsExact(db.requests, generations)
  {
    forall key | key in db.requests ensures RequestExact(generations, key, db.requests[key]) {
      assert RequestExact(db.generations, key, db.requests[key]);
      assert SameButPoints(db.generations[StableGeneration(key)], generations[StableGeneration(key)]);
    }
  }

  lemma PointsKeepCounts(db: Database, generations: Generations)
    requires ActivationsCounted(db.mutations, db.jobs, db.generations) && Anchored(db.mutations, db.generations)
    requires generations.Keys == db.generations.Keys
    requires forall h | h in generations :: SameButPoints(db.generations[h], generations[h])
    ensures ActivationsCounted(db.mutations, db.jobs, generations) && Anchored(db.mutations, generations)
  {
    forall h | h in generations
      ensures ValidatedMatches(generations[h]) && AnchorLogged(db.mutations, h, generations[h])
      ensures EverActivated(generations, h) <==> EverActivated(db.generations, h)
    {
      assert ValidatedMatches(db.generations[h]) && AnchorLogged(db.mutations, h, db.generations[h]);
      assert SameButPoints(db.generations[h], generations[h]);
    }
    CountsCarry(db, generations);
  }

  lemma ClaimKeeps(db: Database, c: Collection, owner: nat, now: nat, duration: nat)
    requires Inv(db)
    ensures Inv(Claim(db, c, owner, now, duration))
  {}

  lemma CompleteKeeps(db: Database, t: ClaimTicket)
    requires Inv(db)
    ensures Inv(Complete(db, t))
  {}

  lemma ExpireKeeps(db: Database, t: ClaimTicket, now: nat)
    requires Inv(db)
    ensures Inv(Expire(db, t, now))
  {}

  /** The release branch of `_authorize_orphan_cleanup` is never taken: no claim is ever removed. */
  lemma AuthorizeReleasesNothing(db: Database, t: ClaimTicket, now: nat)
    requires Inv(db)
    ensures !Releases(db, t, now)
    ensures Authorize(db, t, now) == db
    ensures Authorized(db, t, now) <==> LeaseValid(db, t, now)
  {}

  lemma CreateKnowledgeBaseKeeps(db: Database, kb: nat)
    requires Inv(db)
    ensures Inv(CreateKnowledgeBase(db, kb))
  {}

  lemma ChangeKnowledgeBaseKeeps(db: Database, kb: nat, status: KnowledgeBaseStatus, schemaChanged: bool, content: Content, n: nat)
    requires Inv(db)
    ensures Inv(ChangeKnowledgeBase(db, kb, status, schemaChanged, content, n))
  {
    if kb in db.knowledgeBases {
      var m := Mutation(OtherMutation(n), kb, db.knowledgeBases[kb].mutationRevision + 1, OtherChange);
      AppendMutation(db.mutations, m);
      var after := ChangeKnowledgeBase(db, kb, status, schemaChanged, content, n);
      forall g ensures CountsMatch(after.mutations, after.jobs, after.generations, g) {
        assert CountsMatch(db.mutations, db.jobs, db.generations, g);
      }
      AppendKeepsRevisions(db.mutations, db.knowledgeBases, m);
      forall i | 0 <= i < |after.mutations| ensures Logged(after.knowledgeBases, after.mutations[i]) {
        assert i < |db.mutations| ==> Logged(db.knowledgeBases, db.mutations[i]);
      }
    }
  }

  lemma AppendMutation(log: seq<Mutation>, m: Mutation)
    ensures forall g :: Activations(log + [m], g) == Activations(log, g) + (if Targets(m, g) then 1 else 0)
  {
    assert (log + [m])[..|log|] == log;
  }

  lemma AppendJob(jobs: seq<Job>, j: Job)
    ensures forall g :: Backfills(jobs + [j], g) == Backfills(jobs, g) + (if j.generation == g then 1 else 0)
  {
    assert (jobs + [j])[..|jobs|] == jobs;
  }

  // ---- activation -------------------------------------------------------------------------------

  lemma ActivateKeeps(db: Database, r: Reservation, actualPoints: nat, now: nat)
    requires Inv(db)
    requires r.key in db.requests ==> r.generation == StableGeneration(r.key)
    ensures Inv(Activate(db, r, actualPoints, now))
  {
    var outcome := ActivateOutcomeOf(db, r, actualPoints);
    if outcome.Conflict? {
      FailCreationKeeps(db, r.key.knowledgeBase, r.key, outcome.error);
    } else if outcome.Activated? {
      PromoteKeeps(db, r, now);
    }
  }

  ghost predicate Promotable(db: Database, r: Reservation) {
    && Inv(db)
    && RowsPresent(db, r) && r.generation == StableGeneration(r.key)
    && r.Target() !in db.claims && !ActivationConflicts(db, r)
  }

  predicate PromotedRow(db: Database, r: Reservation, g: GenerationId, row: Generation)
    requires RowsPresent(db, r) && g in db.generations
  {
    row == if g == r.generation then PromotedGeneration(db, r)
           else if db.generations[g].status == Active && db.generations[g].knowledgeBase == r.key.knowledgeBase
           then db.generations[g].(status := Retiring)
           else db.generations[g]
  }

  /** What a promotion does, row by row: the previous active generation retires, nothing else moves. */
  ghost predicate PromotedTo(db: Database, r: Reservation, after: Database)
    requires RowsPresent(db, r)
  {
    var kb := db.knowledgeBases[r.key.knowledgeBase];
    && after.knowledgeBases == db.knowledgeBases[r.key.knowledgeBase :=
         kb.(mutationRevision := NextRevision(db, r), pending := None, active := Some(r.generation))]
    && after.generations.Keys == db.generations.Keys
    && (forall g | g in db.generations :: PromotedRow(db, r, g, after.generations[g]))
    && after.requests == db.requests[r.key := db.requests[r.key].(state := Succeeded)]
    && after.claims == db.claims
    && after.mutations == db.mutations + [ActivationMutationOf(db, r)]
    && (after.jobs == db.jobs || after.jobs == db.jobs + [BackfillJob(db, r)])
  }

  lemma PromoteDescribed(db: Database, r: Reservation, now: nat)
    requires Promotable(db, r)
    ensures PromotedTo(db, r, Promote(db, r, now))
  {
    var after := Promote(db, r, now);
    assert Names(db.generations, r.key.knowledgeBase, db.knowledgeBases[r.key.knowledgeBase].active, Active);
    assert after.generations.Keys == db.generations.Keys;
    forall g | g in db.generations ensures PromotedRow(db, r, g, after.generations[g]) {
      RowPromoted(db, r, now, g);
    }
    hide Inv, PromotedRow, ActivationMutationOf, BackfillJob, Enrolment, PromotedGeneration, ActivationConflicts;
  }

  lemma RowPromoted(db: Database, r: Reservation, now: nat, g: GenerationId)
    requires Promotable(db, r) && g in db.generations
    ensures g in Promote(db, r, now).generations && PromotedRow(db, r, g, Promote(db, r, now).generations[g])
  {
    assert Named(db.knowledgeBases, g, db.generations[g]);
    assert Names(db.generations, r.key.knowledgeBase, db.knowledgeBases[r.key.knowledgeBase].active, Active);
    hide Inv, ActivationMutationOf, BackfillJob, Enrolment, PromotedGeneration;
  }

  lemma PromoteKeepsNamed(db: Database, r: Reservation, after: Database, g: GenerationId)
    requires Promotable(db, r) && PromotedTo(db, r, after) && g in after.generations
    ensures Named(after.knowledgeBases, g, after.generations[g])
  {
    hide ClaimsSafe, RevisionsBounded, RevisionsIncrease, Anchored, ActivationsCounted, ActivationMutationOf, BackfillJob;
    assert RequestExact(db.generations, r.key, db.requests[r.key]);
    assert Named(db.knowledgeBases, g, db.generations[g]);
    assert PromotedRow(db, r, g, after.generations[g]);
  }

  lemma PromoteKeepsNames(db: Database, r: Reservation, after: Database, kb: nat)
    requires Promotable(db, r) && PromotedTo(db, r, after) && kb in after.knowledgeBases
    ensures Names(after.generations, kb, after.knowledgeBases[kb].pending, Building)
    ensures Names(after.generations, kb, after.knowledgeBases[kb].active, Active)
  {
    hide ClaimsSafe, RevisionsBounded, RevisionsIncrease, Anchored, ActivationsCounted, ActivationMutationOf, BackfillJob;
    assert RequestExact(db.generations, r.key, db.requests[r.key]);
    assert Names(db.generations, kb, db.knowledgeBases[kb].pending, Building);
    assert Names(db.generations, kb, db.knowledgeBases[kb].active, Active);
    assert PromotedRow(db, r, r.generation, after.generations[r.generation]);
  }

  lemma PromoteKeepsPointers(db: Database, r: Reservation, after: Database)
    requires Promotable(db, r) && PromotedTo(db, r, after)
    ensures PointersExact(after.knowledgeBases, after.generations)
  {
    hide Promotable, PromotedTo, Names, Named;
    forall g | g in after.generations ensures Named(after.knowledgeBases, g, after.generations[g]) {
      PromoteKeepsNamed(db, r, after, g);
    }
    forall kb | kb in after.knowledgeBases
      ensures Names(after.generations, kb, after.knowledgeBases[kb].pending, Building)
      ensures Names(after.generations, kb, after.knowledgeBases[kb].active, Active)
    {
      PromoteKeepsNames(db, r, after, kb);
    }
  }

  lemma PromoteKeepsRequests(db: Database, r: Reservation, after: Database)
    requires Promotable(db, r) && PromotedTo(db, r, after)
    ensures RequestsExact(after.requests, after.generations)
  {
    hide ClaimsSafe, RevisionsBounded, RevisionsIncrease, Anchored, ActivationsCounted, ActivationMutationOf, BackfillJob;
    forall key | key in after.requests ensures RequestExact(after.generations, key, after.requests[key]) {
      assert RequestExact(db.generations, key, db.requests[key]);
      assert PromotedRow(db, r, StableGeneration(key), after.generations[StableGeneration(key)]);
    }
    forall g | g in after.generations ensures Requested(after.requests, g) {
      assert Requested(db.requests, g);
    }
  }

  lemma PromoteKeepsClaims(db: Database, r: Reservation, after: Database)
    requires Promotable(db, r) && PromotedTo(db, r, after)
    ensures ClaimsSafe(after)
  {
    hide RevisionsBounded, RevisionsIncrease, Anchored, ActivationsCounted, ActivationMutationOf, BackfillJob;
    assert RequestExact(db.generations, r.key, db.requests[r.key]);
    forall c | c in db.claims ensures Deletable(after, c) {
      assert Deletable(db, c);
      assert c.generation in db.generations ==> PromotedRow(db, r, c.generation, after.generations[c.generation]);
    }
  }

  lemma PromoteKeepsCounts(db: Database, r: Reservation, after: Database)
    requires Promotable(db, r) && PromotedTo(db, r, after)
    ensures ActivationsCounted(after.mutations, after.jobs, after.generations)
  {
    hide PointersExact, ClaimsSafe, RevisionsBounded, RevisionsIncrease, Anchored;
    AppendMutation(db.mutations, ActivationMutationOf(db, r));
    AppendJob(db.jobs, BackfillJob(db, r));
    forall g | g in after.generations
      ensures ValidatedMatches(after.generations[g])
      ensures EverActivated(after.generations, g) <==> g == r.generation || EverActivated(db.generations, g)
      ensures g == r.generation ==> !EverActivated(db.generations, g)
    {
      assert ValidatedMatches(db.generations[g]);
      assert PromotedRow(db, r, g, after.generations[g]);
    }
    forall g ensures CountsMatch(after.mutations, after.jobs, after.generations, g) {
      assert CountsMatch(db.mutations, db.jobs, db.generations, g);
    }
  }

  lemma PromoteKeepsRevisions(db: Database, r: Reservation, after: Database)
    requires Promotable(db, r) && PromotedTo(db, r, after)
    ensures RevisionsBounded(after.mutations, after.knowledgeBases)
    ensures RevisionsIncrease(after.mutations)
  {
    hide PointersExact, ClaimsSafe, RequestsExact, Anchored, ActivationsCounted, BackfillJob;
    AppendKeepsRevisions(db.mutations, db.knowledgeBases, ActivationMutationOf(db, r));
    forall i | 0 <= i < |after.mutations| ensures Logged(after.knowledgeBases, after.mutations[i]) {
      assert i < |db.mutations| ==> Logged(db.knowledgeBases, db.mutations[i]);
    }
  }

  lemma AppendKeepsRevisions(log: seq<Mutation>, bases: KnowledgeBases, m: Mutation)
    requires RevisionsBounded(log, bases) && RevisionsIncrease(log)
    requires m.knowledgeBase in bases && m.revision > bases[m.knowledgeBase].mutationRevision
    ensures RevisionsIncrease(log + [m])
  {
    forall i | 0 <= i < |log| ensures Precedes(log[i], m) {
      assert Logged(bases, log[i]);
    }
  }

  lemma PromoteKeepsAnchors(db: Database, r: Reservation, after: Database)
    requires Promotable(db, r) && PromotedTo(db, r, after)
    ensures Anchored(after.mutations, after.generations)
  {
    hide RevisionsBounded, RevisionsIncrease, PointersExact, ClaimsSafe, BackfillJob;
    var m := ActivationMutationOf(db, r);
    assert PromotedRow(db, r, r.generation, after.generations[r.generation]);
    assert RequestExact(db.generations, r.key, db.requests[r.key]);
    assert AnchorOf(r.generation, after.generations[r.generation]) == m;
    assert after.mutations[|db.mutations|] == m;
    forall g | g in after.generations ensures AnchorLogged(after.mutations, g, after.generations[g]) {
      assert AnchorLogged(db.mutations, g, db.generations[g]);
      assert PromotedRow(db, r, g, after.generations[g]);
    }
  }

  lemma PromoteKeeps(db: Database, r: Reservation, now: nat)
    requires Promotable(db, r)
    ensures Inv(Promote(db, r, now))
  {
    var after := Promote(db, r, now);
    PromoteDescribed(db, r, now);
    PromoteKeepsPointers(db, r, after);
    PromoteKeepsRequests(db, r, after);
    PromoteKeepsClaims(db, r, after);
    PromoteKeepsCounts(db, r, after);
    PromoteKeepsRevisions(db, r, after);
    PromoteKeepsAnchors(db, r, after);
  }
}
