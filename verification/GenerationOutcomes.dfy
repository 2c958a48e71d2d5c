/**
 What the saga's transactions answer and what they leave behind, in every reachable world: which command a
 key stands for, which answer a replay, a new key or an activation gets, and the rows that are written.
 */
module GenerationOutcomes {
  import opened Prelude
  import opened Content
  import opened GenerationModel
  import opened SagaInvariant
  import opened GenerationSaga
  import opened GenerationTheorems
  import opened GenerationRuns

  // ---- the command of a key --------------------------------------------------------------------------------------

  /** The command of the request after which the key had a row for the first time. */
  function FirstCommand(content: Content, run: seq<Step>, key: CreationKey): Option<Command> {
    if run == [] then None
    else
      var before, step := FirstCommand(content, run[..|run|-1], key), run[|run|-1];
      if before.Some? then before
      else if key in After(content, run).db.requests && step.StartCreation? then Some(step.command)
      else None
  }

  /** A row of a key that had none comes from a request with that key, and holds its command. */
  lemma NewRowsAreAskedFor(w: World, step: Step, key: CreationKey)
    requires key !in w.db.requests && key in Apply(w, step).db.requests
    ensures step.StartCreation? && step.key == key && Apply(w, step).db.requests[key].fingerprint == step.command
  {
    if step.StartCreation? {
      hide ReserveOutcomeOf;
    } else {
      NoNewRows(w, step);
    }
  }

  lemma NoNewRows(w: World, step: Step)
    requires !step.StartCreation?
    ensures Apply(w, step).db.requests.Keys == w.db.requests.Keys
  {
    match step
    case RecordFailure(p) =>
      if CreatorOf(w, p).Failing? {
        FailureAddsNoRow(w.db, CreatorOf(w, p).reservation, CreatorOf(w, p).error, CreatorOf(w, p).points);
      }
    case ActivateGeneration(p, now) =>
      if CreatorOf(w, p).Probed? { ActivationAddsNoRow(w.db, CreatorOf(w, p).reservation, now); }
    case _ =>
      if step.ClaimCleanup? || step.AuthorizeCleanup? || step.CompleteCleanup? || step.ExpireCleanup? {
        CleanersTouchClaimsOnly(w, step);
      } else {
        OthersAddNoRow(w, step);
      }
  }

  /** The cleaners' transactions touch no row but the claims. */
  lemma CleanersTouchClaimsOnly(w: World, step: Step)
    requires step.ClaimCleanup? || step.AuthorizeCleanup? || step.CompleteCleanup? || step.ExpireCleanup?
    ensures var after := Apply(w, step); after.db == w.db.(claims := after.db.claims) && after.creators == w.creators
  {
    hide Deletable, ClaimAvailable, NextEpoch, Holds, Releases, Authorized;
  }

  lemma FailureAddsNoRow(db: Database, r: Reservation, error: Error, points: Option<nat>)
    ensures MarkFailed(db, r, error, points).requests.Keys == db.requests.Keys
  {}

  lemma ActivationAddsNoRow(db: Database, r: Reservation, now: nat)
    ensures Activate(db, r, 0, now).requests.Keys == db.requests.Keys
  {
    hide Enrolment, BackfillJob, ActivationMutationOf, PromotedGeneration;
  }

  lemma OthersAddNoRow(w: World, step: Step)
    requires !step.StartCreation? && !step.RecordFailure? && !step.ActivateGeneration?
    requires !step.ClaimCleanup? && !step.AuthorizeCleanup? && !step.CompleteCleanup? && !step.ExpireCleanup?
    ensures Apply(w, step).db.requests.Keys == w.db.requests.Keys
  {
    hide Abandon, ChangeKnowledgeBase, CreateKnowledgeBase;
    match step
    case AbandonGeneration(kb, g) => assert Abandon(w.db, kb, g).requests == w.db.requests by { AbandonKeepsRequests(w.db, kb, g); }
    case ChangeElsewhere(kb, status, schemaChanged, content, n) => ChangeKeepsRequests(w.db, kb, status, schemaChanged, content, n);
    case AddKnowledgeBase(kb) => CreateKeepsRequests(w.db, kb);
    case _ =>
  }

  lemma AbandonKeepsRequests(db: Database, kb: nat, g: GenerationId)
    ensures Abandon(db, kb, g).requests == db.requests
  {}

  lemma ChangeKeepsRequests(db: Database, kb: nat, status: KnowledgeBaseStatus, schemaChanged: bool, content: Content, n: nat)
    ensures ChangeKnowledgeBase(db, kb, status, schemaChanged, content, n).requests == db.requests
    ensures ChangeKnowledgeBase(db, kb, status, schemaChanged, content, n).generations == db.generations
  {}

  lemma CreateKeepsRequests(db: Database, kb: nat)
    ensures CreateKnowledgeBase(db, kb).requests == db.requests && CreateKnowledgeBase(db, kb).generations == db.generations
  {}

  /** In every reachable world a key has a row exactly when it was asked for, and the row holds the first command. */
  lemma {:induction false} KeyHoldsFirstCommand(content: Content, run: seq<Step>, key: CreationKey)
    ensures var db := After(content, run).db;
            && (key in db.requests <==> FirstCommand(content, run, key).Some?)
            && (key in db.requests ==> db.requests[key].fingerprint == FirstCommand(content, run, key).value)
  {
    if run != [] {
      hide Apply;
      var front, step := run[..|run|-1], run[|run|-1];
      KeyHoldsFirstCommand(content, front, key);
      assert front + [step] == run;
      RunForward(content, front, [step]);
      var before, after := After(content, front), After(content, run);
      if key in before.db.requests {
        assert RequestAdvances(before.db.requests[key], after.db.requests[key]);
      } else if key in after.db.requests {
        NewRowsAreAskedFor(before, step, key);
      }
    }
  }

  // ---- what a replay is answered ---------------------------------------------------------------------------------

  /** Generation and request are recorded as failed with this error, and the generation is no longer pending. */
  ghost predicate FailedWith(db: Database, after: Database, key: CreationKey, error: Error) {
    var g, kb := StableGeneration(key), key.knowledgeBase;
    && key in db.requests && g in db.generations && kb in db.knowledgeBases
    && after.requests == db.requests[key := CreationRequest(db.requests[key].fingerprint, g, RequestFailed(error))]
    && after.generations == db.generations[g := db.generations[g].(status := Failed, error := Some(error))]
    && after.knowledgeBases == db.knowledgeBases[kb :=
         db.knowledgeBases[kb].(pending := if db.knowledgeBases[kb].pending == Some(g) then None else db.knowledgeBases[kb].pending)]
    && after.claims == db.claims && after.mutations == db.mutations && after.jobs == db.jobs && after.content == db.content
  }

  /** What the rows of a key say, in a reachable database. */
  lemma RowsOfKey(db: Database, key: CreationKey)
    requires Inv(db) && key in db.requests
    ensures key.knowledgeBase in db.knowledgeBases && db.requests[key].generation == StableGeneration(key)
    ensures StableGeneration(key) in db.generations && db.generations[StableGeneration(key)].knowledgeBase == key.knowledgeBase
    ensures RequestMatches(db.requests[key].state, db.generations[StableGeneration(key)].status)
    ensures GenerationRuns.TargetOf(key) in db.claims ==> db.generations[StableGeneration(key)].status == Failed
    ensures db.knowledgeBases[key.knowledgeBase].pending == Some(StableGeneration(key)) <==> db.generations[StableGeneration(key)].status == Building
    ensures db.generations[StableGeneration(key)].status == Building ==> db.knowledgeBases[key.knowledgeBase].active != Some(StableGeneration(key))
  {
    assert RequestExact(db.generations, key, db.requests[key]);
    assert Named(db.knowledgeBases, StableGeneration(key), db.generations[StableGeneration(key)]);
    assert Names(db.generations, key.knowledgeBase, db.knowledgeBases[key.knowledgeBase].pending, Building);
    assert Names(db.generations, key.knowledgeBase, db.knowledgeBases[key.knowledgeBase].active, Active);
    assert GenerationRuns.TargetOf(key) in db.claims ==> Deletable(db, GenerationRuns.TargetOf(key));
  }

  /** The answer to the first command asked again, by the state of its generation. */
  function ReplayAnswer(db: Database, key: CreationKey, check: ConfigurationCheck): ReserveOutcome
    requires key in db.requests && StableGeneration(key) in db.generations && key.knowledgeBase in db.knowledgeBases
  {
    var g, c, state := StableGeneration(key), GenerationRuns.TargetOf(key), db.requests[key].state;
    match db.generations[g].status
    case Active => Replayed(g)
    case Retiring => Refused(Internal)
    case _ =>
      if c in db.claims then
        if !db.claims[c].completed then Refused(CleanupInProgress)
        else if state.RequestFailed? then Refused(CollectionRetired) else Terminal(CollectionRetired)
      else match state
        case RequestFailed(error) => Refused(error)
        case _ =>
          if db.knowledgeBases[key.knowledgeBase].status != KbActive then Terminal(ConfigurationConflict)
          else match check
            case Unusable(error) => Terminal(error)
            case Usable(_) => Reserved(Reservation(key, g, db.generations[g].filterRevision))
  }

  lemma ReplayDecides(db: Database, key: CreationKey, command: Command, check: ConfigurationCheck)
    requires Inv(db) && key in db.requests && StableGeneration(key) in db.generations && key.knowledgeBase in db.knowledgeBases
    ensures ReserveOutcomeOf(db, key, command, check)
         == if command != db.requests[key].fingerprint then Refused(KeyReused) else ReplayAnswer(db, key, check)
    ensures var outcome, after := ReserveOutcomeOf(db, key, command, check), Reserve(db, key, command, check);
            if outcome.Terminal? then FailedWith(db, after, key, outcome.error) else after == db
  {
    RowsOfKey(db, key);
    hide Inv;
  }

  /**
   In every reachable world a key that has a request stands for the command it was first reserved with. Any
   other command is refused as a reuse of the key, and changes nothing; the first one is answered by the state
   of its generation, and a terminal answer is recorded with its error.
   */
  lemma KeyStandsForOneCommand(content: Content, run: seq<Step>, key: CreationKey, command: Command, check: ConfigurationCheck)
    requires key in After(content, run).db.requests
    ensures var db, first := After(content, run).db, FirstCommand(content, run, key);
            var outcome, after := ReserveOutcomeOf(db, key, command, check), Reserve(db, key, command, check);
            && first.Some? && StableGeneration(key) in db.generations && key.knowledgeBase in db.knowledgeBases
            && outcome == (if command == first.value then ReplayAnswer(db, key, check) else Refused(KeyReused))
            && (if outcome.Terminal? then FailedWith(db, after, key, outcome.error) else after == db)
  {
    RunKeeps(content, run);
    KeyHoldsFirstCommand(content, run, key);
    InvOf(After(content, run));
    hide After, FirstCommand, Reserve, ReserveOutcomeOf, Inv;
    RowsOfKey(After(content, run).db, key);
    ReplayDecides(After(content, run).db, key, command, check);
  }

  /** No call reports the error that stands for a reused key. */
  predicate Sincere(step: Step) {
    match step
    case StartCreation(_, _, _, check) => check != Unusable(KeyReused)
    case Probe(_, refused) => refused != Some(KeyReused)
    case _ => true
  }

  /** No failure has been, or is about to be, recorded with that error. */
  ghost predicate NoneRecorded(w: World) {
    && (forall key | key in w.db.requests :: w.db.requests[key].state != RequestFailed(KeyReused))
    && (forall p | p in w.creators && w.creators[p].Failing? :: w.creators[p].error != KeyReused)
  }

  lemma StepRecordsNone(w: World, step: Step)
    requires NoneRecorded(w) && Sincere(step)
    ensures NoneRecorded(Apply(w, step))
  {
    match step
    case StartCreation(p, key, command, check) => StartRecordsNone(w, p, key, command, check);
    case ActivateGeneration(p, now) => ActivateRecordsNone(w, p, now);
    case RecordFailure(p) => FailureRecordsNone(w, p);
    case _ =>
      if step.ClaimCleanup? || step.AuthorizeCleanup? || step.CompleteCleanup? || step.ExpireCleanup? {
        CleanersTouchClaimsOnly(w, step);
        hide Apply;
      } else {
        OthersRecordNone(w, step);
        hide Apply;
      }
  }

  lemma FailureRecordsNone(w: World, p: nat)
    requires NoneRecorded(w)
    ensures NoneRecorded(Apply(w, RecordFailure(p)))
  {}

  lemma OthersRecordNone(w: World, step: Step)
    requires NoneRecorded(w) && Sincere(step)
    requires !step.StartCreation? && !step.RecordFailure? && !step.ActivateGeneration?
    requires !step.ClaimCleanup? && !step.AuthorizeCleanup? && !step.CompleteCleanup? && !step.ExpireCleanup?
    ensures NoneRecorded(Apply(w, step))
  {
    hide Abandon, ChangeKnowledgeBase, CreateKnowledgeBase;
    match step
    case AbandonGeneration(kb, g) => AbandonKeepsRequests(w.db, kb, g);
    case ChangeElsewhere(kb, status, schemaChanged, content, n) => ChangeKeepsRequests(w.db, kb, status, schemaChanged, content, n);
    case AddKnowledgeBase(kb) => CreateKeepsRequests(w.db, kb);
    case _ =>
  }

  lemma StartRecordsNone(w: World, p: nat, key: CreationKey, command: Command, check: ConfigurationCheck)
    requires NoneRecorded(w) && check != Unusable(KeyReused)
    ensures NoneRecorded(Apply(w, StartCreation(p, key, command, check)))
  {}

  lemma ActivateRecordsNone(w: World, p: nat, now: nat)
    requires NoneRecorded(w)
    ensures NoneRecorded(Apply(w, ActivateGeneration(p, now)))
  {
    hide Enrolment, BackfillJob, ActivationMutationOf, PromotedGeneration;
  }

  lemma {:induction false} RunRecordsNone(content: Content, run: seq<Step>)
    requires forall i | 0 <= i < |run| :: Sincere(run[i])
    ensures NoneRecorded(After(content, run))
  {
    if run != [] {
      hide NoneRecorded, Apply;
      RunRecordsNone(content, run[..|run|-1]);
      StepRecordsNone(After(content, run[..|run|-1]), run[|run|-1]);
    } else {
      assert NoneRecorded(After(content, run));
    }
  }

  /**
   Where no other call reports that error, a request is refused as a reuse of its key if and only if its
   command is not the one the key was first reserved with; so a reservation, a replayed generation or a terminal
   answer is only ever given to the first command.
   */
  lemma KeyReusedExactly(content: Content, run: seq<Step>, key: CreationKey, command: Command, check: ConfigurationCheck)
    requires key in After(content, run).db.requests
    requires check != Unusable(KeyReused) && forall i | 0 <= i < |run| :: Sincere(run[i])
    ensures var outcome := ReserveOutcomeOf(After(content, run).db, key, command, check);
            && (outcome == Refused(KeyReused) <==> FirstCommand(content, run, key) != Some(command))
            && (outcome.Reserved? || outcome.Replayed? || outcome.Terminal? ==> FirstCommand(content, run, key) == Some(command))
  {
    hide After, FirstCommand, ReserveOutcomeOf, Reserve, FailedWith, Sincere;
    KeyStandsForOneCommand(content, run, key, command, check);
    RunRecordsNone(content, run);
  }

  // ---- what a new key is answered --------------------------------------------------------------------------------

  /** The rows a reservation adds. */
  ghost predicate ReservedRows(db: Database, after: Database, key: CreationKey, command: Command, embeddingHash: string) {
    var g, kb := StableGeneration(key), key.knowledgeBase;
    && kb in db.knowledgeBases
    && after.requests == db.requests[key := CreationRequest(command, g, RequestBuilding)]
    && after.generations == db.generations[g :=
         Generation(kb, command.profile, embeddingHash, db.knowledgeBases[kb].filterRevision, Building,
                    db.knowledgeBases[kb].mutationRevision, None, None, None, None, None)]
    && after.knowledgeBases == db.knowledgeBases[kb := db.knowledgeBases[kb].(pending := Some(g))]
    && after.claims == db.claims && after.mutations == db.mutations && after.jobs == db.jobs && after.content == db.content
  }

  /** What stands in the way of a new key. */
  function NewKeyError(db: Database, key: CreationKey, check: ConfigurationCheck): Option<Error> {
    var kb, c := key.knowledgeBase, GenerationRuns.TargetOf(key);
    if kb !in db.knowledgeBases then Some(NotFound)
    else if db.knowledgeBases[kb].status != KbActive then Some(ConfigurationConflict)
    else if db.knowledgeBases[kb].pending != None then Some(AlreadyConfigured)
    else match check
      case Unusable(error) => Some(error)
      case Usable(_) =>
        if c in db.claims then Some(if db.claims[c].completed then CollectionRetired else CleanupInProgress) else None
  }

  lemma NewKeyDecides(db: Database, key: CreationKey, command: Command, check: ConfigurationCheck)
    requires Inv(db) && key !in db.requests
    ensures var error, outcome, after := NewKeyError(db, key, check), ReserveOutcomeOf(db, key, command, check), Reserve(db, key, command, check);
            if error.Some? then outcome == Refused(error.value) && after == db
            else
              && key.knowledgeBase in db.knowledgeBases && check.Usable?
              && outcome == Reserved(Reservation(key, StableGeneration(key), db.knowledgeBases[key.knowledgeBase].filterRevision))
              && ReservedRows(db, after, key, command, check.embeddingHash)
  {
    NewKeyHasNoRow(db, key);
    if key.knowledgeBase in db.knowledgeBases {
      assert Names(db.generations, key.knowledgeBase, db.knowledgeBases[key.knowledgeBase].pending, Building);
      if BuildingExists(db, key.knowledgeBase) {
        var g :| g in db.generations && db.generations[g].knowledgeBase == key.knowledgeBase && db.generations[g].status == Building;
        assert Named(db.knowledgeBases, g, db.generations[g]);
      }
    }
    hide Inv;
  }

  /** In every reachable world a new key is reserved, with rows of its own, exactly when nothing stands in its way. */
  lemma NewKeyAnswer(content: Content, run: seq<Step>, key: CreationKey, command: Command, check: ConfigurationCheck)
    requires key !in After(content, run).db.requests
    ensures var db := After(content, run).db;
            var error, outcome, after := NewKeyError(db, key, check), ReserveOutcomeOf(db, key, command, check), Reserve(db, key, command, check);
            if error.Some? then outcome == Refused(error.value) && after == db
            else
              && key.knowledgeBase in db.knowledgeBases && check.Usable?
              && outcome == Reserved(Reservation(key, StableGeneration(key), db.knowledgeBases[key.knowledgeBase].filterRevision))
              && ReservedRows(db, after, key, command, check.embeddingHash)
  {
    RunKeeps(content, run);
    InvOf(After(content, run));
    NewKeyDecides(After(content, run).db, key, command, check);
  }

  // ---- what an activation is answered ----------------------------------------------------------------------------

  /** The generation may become the active one. */
  predicate ActivationOpen(db: Database, r: Reservation) {
    && r.Target() !in db.claims
    && r.key.knowledgeBase in db.knowledgeBases
    && db.knowledgeBases[r.key.knowledgeBase].pending == Some(r.generation)
    && db.knowledgeBases[r.key.knowledgeBase].status == KbActive
    && db.knowledgeBases[r.key.knowledgeBase].filterRevision == r.filterRevision
  }

  /** The answer to a creator that has probed its collection. */
  function ActivationAnswer(db: Database, r: Reservation): ActivateOutcome
    requires r.key in db.requests && r.generation in db.generations
  {
    var state, status := db.requests[r.key].state, db.generations[r.generation].status;
    if r.Target() in db.claims then
      if db.claims[r.Target()].completed then Conflict(CollectionRetired) else ActivateRefused(CleanupInProgress)
    else if status == Active then AlreadyActive(r.generation)
    else match state
      case RequestFailed(error) => ActivateRefused(error)
      case _ => if ActivationOpen(db, r) then Activated(r.generation) else Conflict(ConfigurationConflict)
  }

  /** The rows of an activation: the new generation serves, validated as empty at the next revision, and the old one retires. */
  ghost predicate ActivatedRows(db: Database, after: Database, r: Reservation) {
    var g, k := r.generation, r.key.knowledgeBase;
    && r.key in db.requests && g in db.generations && k in db.knowledgeBases
    && var row, kb := db.generations[g], db.knowledgeBases[k];
       var revision := kb.mutationRevision + 1;
       var hash := ManifestHash(k, g, revision, 0);
       && after.requests == db.requests[r.key := CreationRequest(db.requests[r.key].fingerprint, db.requests[r.key].generation, Succeeded)]
       && after.knowledgeBases == db.knowledgeBases[k :=
            KnowledgeBase(kb.status, kb.filterRevision, revision, Some(g), None)]
       && after.generations.Keys == db.generations.Keys
       && after.generations[g] == Generation(row.knowledgeBase, row.profile, row.embeddingHash, row.filterRevision, Active, revision,
                                             Some(revision), Some(0), Some(0), Some(hash), None)
       && (forall h | h in db.generations && h != g ::
             after.generations[h] == if kb.active == Some(h) then db.generations[h].(status := Retiring) else db.generations[h])
       && after.mutations == db.mutations + [
            Mutation(ActivationMutation(g, revision), k, revision,
                     IndexConfigChanged(g, AnchorPayload(g, row.profile, row.embeddingHash, row.filterRevision, hash)))]
       && after.claims == db.claims
  }

  lemma ActivationDecides(db: Database, r: Reservation)
    requires Inv(db) && r.key in db.requests && r.generation == StableGeneration(r.key) && r.generation in db.generations
    ensures ActivateOutcomeOf(db, r, 0) == ActivationAnswer(db, r)
  {
    RowsOfKey(db, r.key);
    hide Inv;
  }

  lemma ActivationWrites(db: Database, r: Reservation, now: nat)
    requires Inv(db) && r.key in db.requests && r.generation == StableGeneration(r.key) && r.generation in db.generations
    ensures var outcome, after := ActivateOutcomeOf(db, r, 0), Activate(db, r, 0, now);
            match outcome
            case Activated(_) => ActivatedRows(db, after, r)
            case Conflict(error) => FailedWith(db, after, r.key, error)
            case _ => after == db
  {
    RowsOfKey(db, r.key);
    if ActivateOutcomeOf(db, r, 0).Activated? {
      PromotionWrites(db, r, now);
    }
    hide Inv, Promote, FailCreation;
    if ActivateOutcomeOf(db, r, 0).Conflict? {
      FailureWrites(db, r.key, ActivateOutcomeOf(db, r, 0).error);
    }
  }

  lemma FailureWrites(db: Database, key: CreationKey, error: Error)
    requires key in db.requests && key.knowledgeBase in db.knowledgeBases && StableGeneration(key) in db.generations
    requires db.requests[key].generation == StableGeneration(key)
    ensures FailedWith(db, FailCreation(db, key.knowledgeBase, key, StableGeneration(key), error), key, error)
  {}

  lemma PromotionWrites(db: Database, r: Reservation, now: nat)
    requires Inv(db) && RowsPresent(db, r) && r.generation == StableGeneration(r.key) && ActivateOutcomeOf(db, r, 0).Activated?
    ensures ActivatedRows(db, Promote(db, r, now), r)
  {
    assert Names(db.generations, r.key.knowledgeBase, db.knowledgeBases[r.key.knowledgeBase].active, Active);
    hide Inv, Enrolment, BackfillJob;
  }

  /**
   In every reachable world a creator that has probed its collection activates its generation if and only if the
   collection is under no claim, the generation is the pending one, the knowledge base is active and its filter
   revision is still the one of the reservation, which is the one the generation was built for. Otherwise the
   answer is the refusal, the conflict or the replay the state of the rows calls for; a conflict is recorded with
   its error, and everything else changes nothing.
   */
  lemma ActivationExactly(content: Content, run: seq<Step>, p: nat, now: nat)
    requires CreatorOf(After(content, run), p).Probed?
    ensures var db, r := After(content, run).db, CreatorOf(After(content, run), p).reservation;
            var outcome, after := ActivateOutcomeOf(db, r, 0), After(content, run + [ActivateGeneration(p, now)]).db;
            && r.key in db.requests && r.generation in db.generations && db.generations[r.generation].filterRevision == r.filterRevision
            && outcome == ActivationAnswer(db, r)
            && (outcome.Activated? <==> ActivationOpen(db, r))
            && match outcome
               case Activated(_) => ActivatedRows(db, after, r)
               case Conflict(error) => FailedWith(db, after, r.key, error)
               case _ => after == db
  {
    hide Inv, WorldInv, ActivateOutcomeOf, Activate, FailedWith, ActivatedRows, ActivationAnswer, ActivationOpen;
    RunKeeps(content, run);
    var w := After(content, run);
    ReservationRows(w, p);
    assert (run + [ActivateGeneration(p, now)])[..|run|] == run;
    ActivationDecides(w.db, CreatorOf(w, p).reservation);
    ActivationWrites(w.db, CreatorOf(w, p).reservation, now);
    OpenIsActivated(w.db, CreatorOf(w, p).reservation);
  }

  lemma OpenIsActivated(db: Database, r: Reservation)
    requires Inv(db) && r.key in db.requests && r.generation == StableGeneration(r.key) && r.generation in db.generations
    ensures ActivationAnswer(db, r).Activated? <==> ActivationOpen(db, r)
  {
    RowsOfKey(db, r.key);
    hide Inv;
  }

  /**
   A creator that comes back when its generation has been activated by a replay of the same request and superseded since: the
   retiring generation and the request that had succeeded are recorded as failed, and the collection may be deleted from then on.
   */
  lemma LateTwinFailsTheRetiring(content: Content, run: seq<Step>, p: nat, now: nat)
    requires CreatorOf(After(content, run), p).Probed?
    requires var db, r := After(content, run).db, CreatorOf(After(content, run), p).reservation;
             r.generation in db.generations && db.generations[r.generation].status == Retiring
    ensures var r, after := CreatorOf(After(content, run), p).reservation, After(content, run + [ActivateGeneration(p, now)]).db;
            && r.generation in after.generations && after.generations[r.generation].status == Failed
            && r.key in after.requests && after.requests[r.key].state == RequestFailed(ConfigurationConflict)
            && Deletable(after, r.Target())
  {
    hide WorldInv, Inv, ActivateOutcomeOf, Activate, Apply;
    RunKeeps(content, run);
    ReservationRows(After(content, run), p);
    RowsOfKey(After(content, run).db, CreatorOf(After(content, run), p).reservation.key);
    ActivationExactly(content, run, p, now);
    hide After;
  }

  /** In any database, reachable or not, a generation is activated exactly when all of this holds. */
  lemma ActivationNeedsAll(db: Database, r: Reservation, points: nat)
    ensures ActivateOutcomeOf(db, r, points).Activated? <==>
              && points == 0 && r.key in db.requests && r.generation in db.generations && r.key.knowledgeBase in db.knowledgeBases
              && Collection(r.key.knowledgeBase, r.generation) !in db.claims
              && !db.requests[r.key].state.RequestFailed?
              && db.generations[r.generation].status == Building
              && var kb := db.knowledgeBases[r.key.knowledgeBase];
                 kb.status == KbActive && kb.pending == Some(r.generation) && kb.active != Some(r.generation)
                 && kb.filterRevision == r.filterRevision
  {}

  /** In any database a failure is not recorded over a success or an active generation. */
  lemma SuccessIsNotOverwritten(db: Database, r: Reservation, error: Error, points: Option<nat>)
    requires RowsPresent(db, r)
    ensures MarkFailed(db, r, error, points) == db <==>
              || db.requests[r.key].state == Succeeded || db.generations[r.generation].status == Active
              || FailureWouldRepeat(db, r, error, points)
  {
    var g, kb := r.generation, r.key.knowledgeBase;
    if FailureWouldRepeat(db, r, error, points) {
      assert db.generations == db.generations[g := db.generations[g]];
      assert db.requests == db.requests[r.key := db.requests[r.key]];
      assert db.knowledgeBases == db.knowledgeBases[kb := db.knowledgeBases[kb]];
    } else if MarkFailedApplies(db, r) {
      var after := MarkFailed(db, r, error, points);
      assert after.requests[r.key].state == RequestFailed(error) && after.generations[g].error == Some(error);
    }
  }

  /** The same failure is recorded already. */
  predicate FailureWouldRepeat(db: Database, r: Reservation, error: Error, points: Option<nat>)
    requires RowsPresent(db, r)
  {
    && db.requests[r.key].state == RequestFailed(error)
    && db.generations[r.generation].status == Failed && db.generations[r.generation].error == Some(error)
    && db.knowledgeBases[r.key.knowledgeBase].pending != Some(r.generation)
    && (points.Some? ==> db.generations[r.generation].expectedPoints == Some(0) && db.generations[r.generation].actualPoints == points)
  }

  // ---- who becomes active ---------------------------------------------------------------------------------------------

  ghost predicate BecomesActive(before: Database, after: Database, g: GenerationId) {
    && g in after.generations && after.generations[g].status == Active
    && (g !in before.generations || before.generations[g].status != Active)
  }

  lemma OnlyActivationsServe(w: World, step: Step, g: GenerationId)
    requires BecomesActive(w.db, Apply(w, step).db, g)
    ensures step.ActivateGeneration? && CreatorOf(w, step.p).Probed?
    ensures ActivateOutcomeOf(w.db, CreatorOf(w, step.p).reservation, 0).Activated? && CreatorOf(w, step.p).reservation.generation == g
  {
    match step
    case StartCreation(_, key, command, check) => ReservationsActivateNone(w.db, key, command, check, g);
    case RecordFailure(p) =>
      if CreatorOf(w, p).Failing? {
        FailuresActivateNone(w.db, CreatorOf(w, p).reservation, CreatorOf(w, p).error, CreatorOf(w, p).points, g);
      }
    case ActivateGeneration(p, now) =>
      if CreatorOf(w, p).Probed? { ActivationsActivateOne(w.db, CreatorOf(w, p).reservation, now, g); }
      hide Activate, ActivateOutcomeOf;
    case _ =>
      if step.ClaimCleanup? || step.AuthorizeCleanup? || step.CompleteCleanup? || step.ExpireCleanup? {
        CleanersTouchClaimsOnly(w, step);
      } else {
        OthersActivateNone(w, step, g);
      }
      hide Apply;
  }

  lemma ReservationsActivateNone(db: Database, key: CreationKey, command: Command, check: ConfigurationCheck, g: GenerationId)
    ensures !BecomesActive(db, Reserve(db, key, command, check), g)
  {
    hide ReserveOutcomeOf;
  }

  lemma FailuresActivateNone(db: Database, r: Reservation, error: Error, points: Option<nat>, g: GenerationId)
    ensures !BecomesActive(db, MarkFailed(db, r, error, points), g)
  {}

  lemma ActivationsActivateOne(db: Database, r: Reservation, now: nat, g: GenerationId)
    requires BecomesActive(db, Activate(db, r, 0, now), g)
    ensures ActivateOutcomeOf(db, r, 0).Activated? && r.generation == g
  {
    hide Enrolment, BackfillJob, ActivationMutationOf;
  }

  lemma OthersActivateNone(w: World, step: Step, g: GenerationId)
    requires !step.StartCreation? && !step.RecordFailure? && !step.ActivateGeneration?
    requires !step.ClaimCleanup? && !step.AuthorizeCleanup? && !step.CompleteCleanup? && !step.ExpireCleanup?
    ensures !BecomesActive(w.db, Apply(w, step).db, g)
  {
    hide ChangeKnowledgeBase, CreateKnowledgeBase;
    match step
    case ChangeElsewhere(kb, status, schemaChanged, content, n) => ChangeKeepsRequests(w.db, kb, status, schemaChanged, content, n);
    case AddKnowledgeBase(kb) => CreateKeepsRequests(w.db, kb);
    case _ =>
  }

  /**
   Whenever a generation becomes active, whichever step it is: at that moment the filter revision it was built
   for is its knowledge base's, it is the one pending there, the knowledge base is active, and its collection is
   under no claim.
   */
  lemma ActiveForTheCurrentFilter(content: Content, run: seq<Step>, step: Step, g: GenerationId)
    requires BecomesActive(After(content, run).db, After(content, run + [step]).db, g)
    ensures var db := After(content, run).db;
            && g in db.generations
            && var kb := db.generations[g].knowledgeBase;
               && kb in db.knowledgeBases && db.generations[g].filterRevision == db.knowledgeBases[kb].filterRevision
               && db.knowledgeBases[kb].pending == Some(g) && db.knowledgeBases[kb].status == KbActive
               && Collection(kb, g) !in db.claims
  {
    hide Apply, ActivateOutcomeOf, WorldInv, Inv, BecomesActive, ActivatedRows, FailedWith;
    assert (run + [step])[..|run|] == run;
    OnlyActivationsServe(After(content, run), step, g);
    ActivationExactly(content, run, step.p, step.now);
    RunKeeps(content, run);
    ReservationRows(After(content, run), step.p);
  }

  /** The rows a creator's reservation names. */
  lemma ReservationRows(w: World, p: nat)
    requires WorldInv(w) && HoldsReservation(CreatorOf(w, p))
    ensures var r := CreatorOf(w, p).reservation;
            && r.key in w.db.requests && r.generation == StableGeneration(r.key) && r.generation in w.db.generations
            && r.filterRevision == w.db.generations[r.generation].filterRevision
            && w.db.generations[r.generation].knowledgeBase == r.key.knowledgeBase
    ensures Inv(w.db)
  {
    assert ReservationKnown(w.db, w.creators[p]);
    InvOf(w);
    RowsOfKey(w.db, w.creators[p].reservation.key);
  }

  // ---- recorded failures ----------------------------------------------------------------------------------------------

  /** What `_mark_failed` leaves behind, with the points it has counted. */
  ghost predicate FailedWithPoints(db: Database, after: Database, key: CreationKey, error: Error, points: Option<nat>) {
    var g := StableGeneration(key);
    if points.None? then FailedWith(db, after, key, error)
    else
      g in after.generations && g in db.generations
      && after.generations[g].expectedPoints == Some(0) && after.generations[g].actualPoints == points
      && FailedWith(db, after.(generations := after.generations[g := after.generations[g].(
           expectedPoints := db.generations[g].expectedPoints, actualPoints := db.generations[g].actualPoints)]), key, error)
  }

  lemma PointsRecorded(db: Database, failed: Database, key: CreationKey, error: Error, points: nat)
    requires FailedWith(db, failed, key, error) && StableGeneration(key) in failed.generations
    ensures var g := StableGeneration(key);
            FailedWithPoints(db, failed.(generations := failed.generations[
              g := failed.generations[g].(expectedPoints := Some(0), actualPoints := Some(points))]), key, error, Some(points))
  {
    var g := StableGeneration(key);
    var after := failed.generations[g := failed.generations[g].(expectedPoints := Some(0), actualPoints := Some(points))];
    assert after[g := after[g].(expectedPoints := db.generations[g].expectedPoints, actualPoints := db.generations[g].actualPoints)]
        == failed.generations;
  }

  lemma FailureDecides(db: Database, r: Reservation, error: Error, points: Option<nat>)
    requires Inv(db) && r.key in db.requests && r.generation == StableGeneration(r.key) && r.generation in db.generations
    ensures var after := MarkFailed(db, r, error, points);
            if ServingRow(db.generations[r.generation]) then after == db else FailedWithPoints(db, after, r.key, error, points)
  {
    hide Inv, FailedWith, FailedWithPoints, FailCreation;
    RowsOfKey(db, r.key);
    FailureWrites(db, r.key, error);
    var failed := FailCreation(db, r.key.knowledgeBase, r.key, r.generation, error);
    FailureKeepsRow(db, r.key, error);
    if points.Some? {
      PointsRecorded(db, failed, r.key, error, points.value);
    } else {
      NoPoints(db, failed, r.key, error);
    }
  }

  lemma FailureKeepsRow(db: Database, key: CreationKey, error: Error)
    requires key in db.requests && key.knowledgeBase in db.knowledgeBases && StableGeneration(key) in db.generations
    ensures StableGeneration(key) in FailCreation(db, key.knowledgeBase, key, StableGeneration(key), error).generations
  {}

  lemma NoPoints(db: Database, failed: Database, key: CreationKey, error: Error)
    requires FailedWith(db, failed, key, error)
    ensures FailedWithPoints(db, failed, key, error, None)
  {}

  /** A creator that gives up records its error and its point count, unless its generation has been activated meanwhile. */
  lemma FailureIsRecorded(content: Content, run: seq<Step>, p: nat)
    requires CreatorOf(After(content, run), p).Failing?
    ensures var db, s := After(content, run).db, CreatorOf(After(content, run), p);
            var after := After(content, run + [RecordFailure(p)]).db;
            && s.reservation.generation in db.generations
            && if ServingRow(db.generations[s.reservation.generation]) then after == db
               else FailedWithPoints(db, after, s.reservation.key, s.error, s.points)
  {
    hide Inv, WorldInv, MarkFailed, FailedWithPoints;
    RunKeeps(content, run);
    var w := After(content, run);
    ReservationRows(w, p);
    assert (run + [RecordFailure(p)])[..|run|] == run;
    FailureDecides(w.db, CreatorOf(w, p).reservation, CreatorOf(w, p).error, CreatorOf(w, p).points);
  }

  /** An abandoned generation: failed, no longer pending, and its request still open. */
  ghost predicate AbandonedRows(db: Database, after: Database, kb: nat, g: GenerationId) {
    && kb in db.knowledgeBases && g in db.generations
    && after.knowledgeBases == db.knowledgeBases[kb := db.knowledgeBases[kb].(pending := None)]
    && after.generations == db.generations[g := db.generations[g].(status := Failed, error := Some(Abandoned))]
    && after == db.(knowledgeBases := after.knowledgeBases, generations := after.generations)
  }

  /** A generation is abandoned exactly when it is the pending one of that knowledge base; otherwise nothing changes. */
  lemma AbandonExactly(content: Content, run: seq<Step>, kb: nat, g: GenerationId)
    ensures var db := After(content, run).db;
            var error, after := AbandonError(db, kb, g), After(content, run + [AbandonGeneration(kb, g)]).db;
            && (error == None <==> kb in db.knowledgeBases && db.knowledgeBases[kb].pending == Some(g))
            && (error == Some(NotAbandonable) <==>
                  g in db.generations && db.generations[g].knowledgeBase == kb && db.generations[g].status != Building)
            && error in {None, Some(NotFound), Some(NotAbandonable)}
            && if error == None then AbandonedRows(db, after, kb, g) else after == db
  {
    hide Inv, WorldInv, Abandon, AbandonError, AbandonedRows;
    RunKeeps(content, run);
    InvOf(After(content, run));
    assert (run + [AbandonGeneration(kb, g)])[..|run|] == run;
    AbandonDecides(After(content, run).db, kb, g);
  }

  lemma AbandonDecides(db: Database, kb: nat, g: GenerationId)
    requires Inv(db)
    ensures var error, after := AbandonError(db, kb, g), Abandon(db, kb, g);
            && (error == None <==> kb in db.knowledgeBases && db.knowledgeBases[kb].pending == Some(g))
            && (error == Some(NotAbandonable) <==>
                  g in db.generations && db.generations[g].knowledgeBase == kb && db.generations[g].status != Building)
            && error in {None, Some(NotFound), Some(NotAbandonable)}
            && if error == None then AbandonedRows(db, after, kb, g) else after == db
  {
    if kb in db.knowledgeBases {
      assert Names(db.generations, kb, db.knowledgeBases[kb].pending, Building);
    }
    if g in db.generations {
      assert Named(db.knowledgeBases, g, db.generations[g]);
    }
    hide Inv;
  }
}
