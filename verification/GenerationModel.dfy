/**
 The rows of the index-generation saga and, for each database transaction of
 generation_services.py, the function from the committed database before it to the committed
 database after it. A transaction that raises rolls back: it returns the database unchanged.
 */
module GenerationModel {
  import opened Prelude
  import opened Content

  datatype GenerationStatus = Building | Active | Retiring | Failed
  datatype KnowledgeBaseStatus = KbActive | KbReindexing | KbDisabled | KbDeleting

  datatype Error =
    | NotFound
    | Internal
    | KeyReused
    | CleanupInProgress
    | CollectionRetired
    | ConfigurationConflict
    | AlreadyConfigured
    | NotAbandonable
    | Abandoned
    | CollectionMismatch
    | CollectionNotEmpty
    | StoreUnavailable
    | Configuration(code: string)
    | Provider(code: string)

  datatype KnowledgeBase = KnowledgeBase(
    status: KnowledgeBaseStatus,
    filterRevision: nat,
    mutationRevision: nat,
    active: Option<GenerationId>,
    pending: Option<GenerationId>)

  /** canonical_sha256 of the empty validation manifest, injective in the manifest's fields. */
  datatype ManifestHash = ManifestHash(knowledgeBase: nat, generation: GenerationId, revision: nat, actualPoints: nat)

  datatype Generation = Generation(
    knowledgeBase: nat,
    profile: nat,
    embeddingHash: string,
    filterRevision: nat,
    status: GenerationStatus,
    caughtUp: nat,
    validated: Option<nat>,
    expectedPoints: Option<nat>,
    actualPoints: Option<nat>,
    manifestHash: Option<ManifestHash>,
    error: Option<Error>)

  /** request_fingerprint is a hash of exactly these fields. */
  datatype Command = Command(profile: nat, distance: string)

  datatype RequestState = RequestBuilding | Succeeded | RequestFailed(error: Error)
  datatype CreationRequest = CreationRequest(fingerprint: Command, generation: GenerationId, state: RequestState)

  datatype Collection = Collection(knowledgeBase: nat, generation: GenerationId)

  datatype CleanupClaim = CleanupClaim(owner: nat, epoch: nat, expires: nat, completed: bool)

  /** uuid5 of "mutation:{generation}:{revision}", or any other mutation's identity. */
  datatype MutationId = ActivationMutation(generation: GenerationId, revision: nat) | OtherMutation(n: nat)

  datatype AnchorPayload = AnchorPayload(
    generation: GenerationId, profile: nat, embeddingHash: string, filterRevision: nat, manifestHash: ManifestHash)

  datatype MutationKind = IndexConfigChanged(target: GenerationId, payload: AnchorPayload) | OtherChange

  datatype Mutation = Mutation(id: MutationId, knowledgeBase: nat, revision: nat, kind: MutationKind)

  /** A queued `rebuild_generation` job. */
  datatype Job = Job(
    knowledgeBase: nat, generation: GenerationId, targetRevision: nat, mutation: MutationId,
    progressCurrent: nat, progressTotal: nat)

  datatype Database = Database(
    knowledgeBases: map<nat, KnowledgeBase>,
    generations: map<GenerationId, Generation>,
    requests: map<CreationKey, CreationRequest>,
    claims: map<Collection, CleanupClaim>,
    mutations: seq<Mutation>,
    jobs: seq<Job>,
    content: Content)

  datatype Reservation = Reservation(key: CreationKey, generation: GenerationId, filterRevision: nat)
  {
    function Target(): Collection { Collection(key.knowledgeBase, generation) }
  }

  datatype ClaimTicket = ClaimTicket(collection: Collection, owner: nat, epoch: nat)

  /** What build_embedding_configuration / _reservation_from_rows yield; the providers are outside the model. */
  datatype ConfigurationCheck = Usable(embeddingHash: string) | Unusable(error: Error)

  datatype ReserveOutcome =
    | Reserved(reservation: Reservation)
    | Replayed(generation: GenerationId)
    | Terminal(error: Error)   // committed as failed
    | Refused(error: Error)    // raised: rolled back

  datatype ActivateOutcome =
    | Activated(generation: GenerationId)
    | AlreadyActive(generation: GenerationId)
    | Conflict(error: Error)         // committed as failed
    | ActivateRefused(error: Error)  // raised: rolled back

  // ---- queries ------------------------------------------------------------------------------

  /** collection_statuses for one name; a generation's collection name is a function of its row. */
  function StatusOf(db: Database, c: Collection): Option<GenerationStatus> {
    if c.generation in db.generations && db.generations[c.generation].knowledgeBase == c.knowledgeBase
    then Some(db.generations[c.generation].status)
    else None
  }

  /** The statuses that make a collection an orphan: no row, or a failed one. */
  predicate Deletable(db: Database, c: Collection) {
    StatusOf(db, c) == None || StatusOf(db, c) == Some(Failed)
  }

  predicate BuildingExists(db: Database, kb: nat) {
    exists g | g in db.generations :: db.generations[g].knowledgeBase == kb && db.generations[g].status == Building
  }

  // ---- shared effect: fail one creation -------------------------------------------------------

  function WithoutPending(kb: KnowledgeBase, g: GenerationId): KnowledgeBase {
    if kb.pending == Some(g) then kb.(pending := None) else kb
  }

  /** Generation and request become failed; the pending pointer is cleared if it names the generation. */
  function FailCreation(db: Database, kb: nat, key: CreationKey, g: GenerationId, error: Error): Database
    requires kb in db.knowledgeBases && key in db.requests && g in db.generations
  {
    db.(knowledgeBases := db.knowledgeBases[kb := WithoutPending(db.knowledgeBases[kb], g)],
        generations := db.generations[g := db.generations[g].(status := Failed, error := Some(error))],
        requests := db.requests[key := db.requests[key].(state := RequestFailed(error))])
  }

  // ---- _reserve -------------------------------------------------------------------------------

  function ReplayOutcome(db: Database, key: CreationKey, command: Command, check: ConfigurationCheck): ReserveOutcome
    requires key in db.requests && key.knowledgeBase in db.knowledgeBases
  {
    var request := db.requests[key];
    if request.fingerprint != command then Refused(KeyReused)
    else if request.generation !in db.generations then Refused(Internal)
    else
      var g := db.generations[request.generation];
      var c := Collection(g.knowledgeBase, request.generation);
      if c in db.claims then
        if !db.claims[c].completed then Refused(CleanupInProgress)
        else if request.state.Succeeded? || g.status.Active? then Refused(Internal)
        else if request.state.RequestFailed? then Refused(CollectionRetired)
        else Terminal(CollectionRetired)
      else if request.state.RequestFailed? then Refused(request.state.error)
      else if request.state.Succeeded? then
        if g.status.Active? then Replayed(request.generation) else Refused(Internal)
      else if db.knowledgeBases[key.knowledgeBase].status != KbActive then Terminal(ConfigurationConflict)
      else if check.Unusable? then Terminal(check.error)
      else Reserved(Reservation(key, request.generation, g.filterRevision))
  }

  function NewRequestOutcome(db: Database, key: CreationKey, check: ConfigurationCheck): ReserveOutcome
    requires key.knowledgeBase in db.knowledgeBases
  {
    var kb := db.knowledgeBases[key.knowledgeBase];
    var c := Collection(key.knowledgeBase, StableGeneration(key));
    if kb.status != KbActive then Refused(ConfigurationConflict)
    else if kb.pending.Some? || BuildingExists(db, key.knowledgeBase) then Refused(AlreadyConfigured)
    else if check.Unusable? then Refused(check.error)
    else if c in db.claims then Refused(if db.claims[c].completed then CollectionRetired else CleanupInProgress)
    else if StableGeneration(key) in db.generations then Refused(Internal)  // primary key conflict
    else Reserved(Reservation(key, StableGeneration(key), kb.filterRevision))
  }

  function NewGeneration(kb: KnowledgeBase, key: CreationKey, command: Command, embeddingHash: string): Generation {
    Generation(key.knowledgeBase, command.profile, embeddingHash, kb.filterRevision, Building,
               kb.mutationRevision, None, None, None, None, None)
  }

  function ReserveOutcomeOf(db: Database, key: CreationKey, command: Command, check: ConfigurationCheck): ReserveOutcome {
    if key.knowledgeBase !in db.knowledgeBases then Refused(NotFound)
    else if key in db.requests then ReplayOutcome(db, key, command, check)
    else NewRequestOutcome(db, key, check)
  }

  function NewRequest(db: Database, key: CreationKey, command: Command, embeddingHash: string): Database
    requires key.knowledgeBase in db.knowledgeBases
  {
    var kb := db.knowledgeBases[key.knowledgeBase];
    db.(knowledgeBases := db.knowledgeBases[key.knowledgeBase := kb.(pending := Some(StableGeneration(key)))],
        generations := db.generations[StableGeneration(key) := NewGeneration(kb, key, command, embeddingHash)],
        requests := db.requests[key := CreationRequest(command, StableGeneration(key), RequestBuilding)])
  }

  function Reserve(db: Database, key: CreationKey, command: Command, check: ConfigurationCheck): Database {
    var outcome := ReserveOutcomeOf(db, key, command, check);
    if outcome.Terminal? then FailCreation(db, key.knowledgeBase, key, db.requests[key].generation, outcome.error)
    else if outcome.Reserved? && key !in db.requests then NewRequest(db, key, command, check.embeddingHash)
    else db
  }

  // ---- _mark_failed ---------------------------------------------------------------------------

  predicate RowsPresent(db: Database, r: Reservation) {
    r.key.knowledgeBase in db.knowledgeBases && r.generation in db.generations && r.key in db.requests
  }

  predicate MarkFailedApplies(db: Database, r: Reservation) {
    && RowsPresent(db, r)
    && !db.requests[r.key].state.Succeeded?
    && !db.generations[r.generation].status.Active?
  }

  function MarkFailed(db: Database, r: Reservation, error: Error, actualPoints: Option<nat>): Database {
    if !MarkFailedApplies(db, r) then db
    else
      var failed := FailCreation(db, r.key.knowledgeBase, r.key, r.generation, error);
      if actualPoints.None? then failed
      else failed.(generations := failed.generations[
                     r.generation := failed.generations[r.generation].(expectedPoints := Some(0), actualPoints := actualPoints)])
  }

  // ---- _activate ------------------------------------------------------------------------------

  predicate ActivationConflicts(db: Database, r: Reservation)
    requires RowsPresent(db, r)
  {
    var kb := db.knowledgeBases[r.key.knowledgeBase];
    || db.generations[r.generation].status != Building
    || kb.status != KbActive
    || kb.pending != Some(r.generation)
    || kb.active == Some(r.generation)
    || kb.filterRevision != r.filterRevision
  }

  function ActivateOutcomeOf(db: Database, r: Reservation, actualPoints: nat): ActivateOutcome {
    if actualPoints != 0 then ActivateRefused(Internal)
    else if !RowsPresent(db, r) then ActivateRefused(Internal)
    else
      var state := db.requests[r.key].state;
      var status := db.generations[r.generation].status;
      if r.Target() in db.claims then
        if !db.claims[r.Target()].completed then ActivateRefused(CleanupInProgress)
        else if state.Succeeded? || status.Active? then ActivateRefused(Internal)
        else Conflict(CollectionRetired)
      else if state.Succeeded? && status.Active? then AlreadyActive(r.generation)
      else if state.RequestFailed? then ActivateRefused(state.error)
      else if ActivationConflicts(db, r) then Conflict(ConfigurationConflict)
      else Activated(r.generation)
  }

  /** The generation an activation retires, when the active pointer names a row. */
  predicate Supersedes(db: Database, kb: nat)
    requires kb in db.knowledgeBases
  {
    db.knowledgeBases[kb].active.Some? && db.knowledgeBases[kb].active.value in db.generations
  }

  function NextRevision(db: Database, r: Reservation): nat
    requires RowsPresent(db, r)
  {
    db.knowledgeBases[r.key.knowledgeBase].mutationRevision + 1
  }

  function PromotedGeneration(db: Database, r: Reservation): Generation
    requires RowsPresent(db, r)
  {
    var revision := NextRevision(db, r);
    db.generations[r.generation].(
      status := Active, caughtUp := revision, validated := Some(revision),
      expectedPoints := Some(0), actualPoints := Some(0),
      manifestHash := Some(ManifestHash(r.key.knowledgeBase, r.generation, revision, 0)), error := None)
  }

  function ActivationMutationOf(db: Database, r: Reservation): Mutation
    requires RowsPresent(db, r)
  {
    var g := PromotedGeneration(db, r);
    var revision := NextRevision(db, r);
    Mutation(ActivationMutation(r.generation, revision), r.key.knowledgeBase, revision,
             IndexConfigChanged(r.generation,
                                AnchorPayload(r.generation, g.profile, g.embeddingHash, g.filterRevision,
                                              ManifestHash(r.key.knowledgeBase, r.generation, revision, 0))))
  }

  function Enrolment(db: Database, r: Reservation, now: nat): (Content, nat)
    requires RowsPresent(db, r)
  {
    if Supersedes(db, r.key.knowledgeBase)
    then Enrol(db.content, r.key.knowledgeBase, r.generation, db.generations[r.generation].embeddingHash, now)
    else (db.content, 0)
  }

  function BackfillJob(db: Database, r: Reservation): Job
    requires RowsPresent(db, r)
  {
    Job(r.key.knowledgeBase, r.generation, NextRevision(db, r), ActivationMutation(r.generation, NextRevision(db, r)),
        0, LivePointTotal(db.content, r.key.knowledgeBase))
  }

  /** The swap: retire the old generation, enrol its documents, queue the backfill, promote the new one. */
  function Promote(db: Database, r: Reservation, now: nat): Database
    requires RowsPresent(db, r)
  {
    var kb := db.knowledgeBases[r.key.knowledgeBase];
    var (content, enrolled) := Enrolment(db, r, now);
    var retired := if Supersedes(db, r.key.knowledgeBase)
                   then db.generations[kb.active.value := db.generations[kb.active.value].(status := Retiring)]
                   else db.generations;
    Database(
      db.knowledgeBases[r.key.knowledgeBase :=
        kb.(mutationRevision := NextRevision(db, r), pending := None, active := Some(r.generation))],
      retired[r.generation := PromotedGeneration(db, r)],
      db.requests[r.key := db.requests[r.key].(state := Succeeded)],
      db.claims,
      db.mutations + [ActivationMutationOf(db, r)],
      if enrolled > 0 then db.jobs + [BackfillJob(db, r)] else db.jobs,
      content)
  }

  function Activate(db: Database, r: Reservation, actualPoints: nat, now: nat): Database {
    var outcome := ActivateOutcomeOf(db, r, actualPoints);
    if outcome.Conflict? then FailCreation(db, r.key.knowledgeBase, r.key, r.generation, outcome.error)
    else if outcome.Activated? then Promote(db, r, now)
    else db
  }

  // ---- abandon_generation ---------------------------------------------------------------------

  function AbandonError(db: Database, kb: nat, g: GenerationId): Option<Error> {
    if kb !in db.knowledgeBases then Some(NotFound)
    else if g !in db.generations || db.generations[g].knowledgeBase != kb then Some(NotFound)
    else if db.generations[g].status != Building then Some(NotAbandonable)
    else None
  }

  function Abandon(db: Database, kb: nat, g: GenerationId): Database {
    if AbandonError(db, kb, g).Some? then db
    else db.(knowledgeBases := db.knowledgeBases[kb := WithoutPending(db.knowledgeBases[kb], g)],
             generations := db.generations[g := db.generations[g].(status := Failed, error := Some(Abandoned))])
  }

  // ---- orphan cleanup claims ------------------------------------------------------------------

  predicate ClaimAvailable(db: Database, c: Collection, now: nat) {
    c in db.claims ==> !db.claims[c].completed && db.claims[c].expires <= now
  }

  function NextEpoch(db: Database, c: Collection): nat {
    if c in db.claims then db.claims[c].epoch + 1 else 1
  }

  function ClaimResult(db: Database, c: Collection, owner: nat, now: nat): Option<ClaimTicket> {
    if Deletable(db, c) && ClaimAvailable(db, c, now) then Some(ClaimTicket(c, owner, NextEpoch(db, c))) else None
  }

  function Claim(db: Database, c: Collection, owner: nat, now: nat, duration: nat): Database {
    if ClaimResult(db, c, owner, now).None? then db
    else db.(claims := db.claims[c := CleanupClaim(owner, NextEpoch(db, c), now + duration, false)])
  }

  /** The fence shared by authorise, complete, expire and release: this owner, this epoch, not completed. */
  predicate Holds(db: Database, t: ClaimTicket) {
    && t.collection in db.claims
    && !db.claims[t.collection].completed
    && db.claims[t.collection].owner == t.owner
    && db.claims[t.collection].epoch == t.epoch
  }

  predicate LeaseValid(db: Database, t: ClaimTicket, now: nat) {
    Holds(db, t) && db.claims[t.collection].expires > now
  }

  predicate Authorized(db: Database, t: ClaimTicket, now: nat) {
    LeaseValid(db, t, now) && Deletable(db, t.collection)
  }

  /** The branch that deletes the claim because the generation came back. */
  predicate Releases(db: Database, t: ClaimTicket, now: nat) {
    LeaseValid(db, t, now) && !Deletable(db, t.collection)
  }

  function Authorize(db: Database, t: ClaimTicket, now: nat): Database {
    if Releases(db, t, now) then db.(claims := db.claims - {t.collection}) else db
  }

  function Complete(db: Database, t: ClaimTicket): Database {
    if Holds(db, t) then db.(claims := db.claims[t.collection := db.claims[t.collection].(completed := true)]) else db
  }

  function Expire(db: Database, t: ClaimTicket, now: nat): Database {
    if Holds(db, t) then db.(claims := db.claims[t.collection := db.claims[t.collection].(expires := now)]) else db
  }

  // ---- the rest of the service, as far as the saga can see it ----------------------------------

  function CreateKnowledgeBase(db: Database, kb: nat): Database {
    if kb in db.knowledgeBases then db
    else db.(knowledgeBases := db.knowledgeBases[kb := KnowledgeBase(KbActive, 0, 0, None, None)])
  }

  /** Any change of documents, metadata, filter schema or status elsewhere: one logged revision. */
  function ChangeKnowledgeBase(db: Database, kb: nat, status: KnowledgeBaseStatus, schemaChanged: bool,
                               content: Content, n: nat): Database {
    if kb !in db.knowledgeBases then db
    else
      var row := db.knowledgeBases[kb];
      db.(knowledgeBases := db.knowledgeBases[kb := row.(
            status := status,
            filterRevision := row.filterRevision + (if schemaChanged then 1 else 0),
            mutationRevision := row.mutationRevision + 1)],
          mutations := db.mutations + [Mutation(OtherMutation(n), kb, row.mutationRevision + 1, OtherChange)],
          content := content)
  }
}
