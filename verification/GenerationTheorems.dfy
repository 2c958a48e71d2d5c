/** What the saga promises over whole runs. */
module GenerationTheorems {
  import opened Prelude
  import opened Content
  import opened GenerationModel
  import opened SagaInvariant
  import opened GenerationSaga

  /**
   In every interleaving a delete, whenever it lands and however stale its sender, hits a collection
   whose generation is missing or failed, and stays so for the rest of the run.
   */
  lemma DeletesHitOnlyOrphans(content: Content, run: seq<Step>, more: seq<Step>, c: Collection)
    requires c in After(content, run).deletesSent
    ensures Deletable(After(content, run).db, c)
    ensures Deletable(After(content, run + more).db, c)
  {
    RunKeeps(content, run);
    RunKeeps(content, run + more);
    RunForward(content, run, more);
    assert c in After(content, run).db.claims;
    assert c in After(content, run + more).db.claims;
  }

  /** The collection of a building, active or retiring generation is never deleted. */
  lemma LiveCollectionsAreNeverDeleted(content: Content, run: seq<Step>, step: Step, c: Collection)
    requires c in After(content, run).store
    requires !Deletable(After(content, run + [step]).db, c)
    ensures c in After(content, run + [step]).store
  {
    assert (run + [step])[..|run|] == run;
    hide WorldInv, Inv, Deletable;
    var w := After(content, run);
    if step == DeleteLands(c) {
      if c in w.deletesSent {
        DeletesHitOnlyOrphans(content, run, [step], c);
        assert false;
      }
    } else {
      StoreKeeps(w, step, c);
    }
  }

  /** Only a delete of the collection itself removes it. */
  lemma StoreKeeps(w: World, step: Step, c: Collection)
    requires c in w.store && step != DeleteLands(c)
    ensures c in Apply(w, step).store
  {
    hide Reserve, ReserveOutcomeOf, MarkFailed, Activate, Abandon, Claim, Complete, Expire, Authorize;
  }

  /** The collection of an active (or retiring) generation exists. */
  lemma ServingCollectionsExist(content: Content, run: seq<Step>, g: GenerationId)
    requires g in After(content, run).db.generations
    requires ServingRow(After(content, run).db.generations[g])
    ensures Collection(After(content, run).db.generations[g].knowledgeBase, g) in After(content, run).store
  {
    RunKeeps(content, run);
  }

  /** Both pointers name exactly the generation in their status, and there is at most one of each. */
  lemma PointersNameExactly(content: Content, run: seq<Step>, kb: nat, g: GenerationId)
    requires kb in After(content, run).db.knowledgeBases
    ensures var db := After(content, run).db;
            && (db.knowledgeBases[kb].pending == Some(g) <==>
                  g in db.generations && db.generations[g].knowledgeBase == kb && db.generations[g].status == Building)
            && (db.knowledgeBases[kb].active == Some(g) <==>
                  g in db.generations && db.generations[g].knowledgeBase == kb && db.generations[g].status == Active)
  {
    RunKeeps(content, run);
    var db := After(content, run).db;
    assert Names(db.generations, kb, db.knowledgeBases[kb].pending, Building);
    assert Names(db.generations, kb, db.knowledgeBases[kb].active, Active);
    assert g in db.generations ==> Named(db.knowledgeBases, g, db.generations[g]);
  }

  /** After the first activation a knowledge base has exactly one active generation, for ever. */
  lemma OneActiveEverAfter(content: Content, run: seq<Step>, more: seq<Step>, kb: nat)
    returns (g: GenerationId)
    requires kb in After(content, run).db.knowledgeBases
    requires After(content, run).db.knowledgeBases[kb].active.Some?
    ensures var db := After(content, run + more).db;
            forall h :: (h in db.generations && db.generations[h].knowledgeBase == kb && db.generations[h].status == Active) <==> h == g
  {
    RunForward(content, run, more);
    var before := After(content, run).db;
    var db := After(content, run + more).db;
    assert BaseAdvances(before.knowledgeBases[kb], db.knowledgeBases[kb]);
    g := db.knowledgeBases[kb].active.value;
    forall h ensures (h in db.generations && db.generations[h].knowledgeBase == kb && db.generations[h].status == Active) <==> h == g {
      PointersNameExactly(content, run + more, kb, h);
    }
  }

  /** Statuses only move forward in the order building, active, retiring, failed; failed is never left, and what the generation was configured with stays. */
  lemma StatusesOnlyAdvance(content: Content, run: seq<Step>, more: seq<Step>, g: GenerationId)
    requires g in After(content, run).db.generations
    ensures var before := After(content, run).db;
            var after := After(content, run + more).db;
            && g in after.generations
            && Rank(before.generations[g].status) <= Rank(after.generations[g].status)
            && (before.generations[g].status == Failed ==> after.generations[g].status == Failed)
            && after.generations[g].profile == before.generations[g].profile
            && after.generations[g].embeddingHash == before.generations[g].embeddingHash
            && after.generations[g].filterRevision == before.generations[g].filterRevision
  {
    RunForward(content, run, more);
    assert GenerationAdvances(After(content, run).db.generations[g], After(content, run + more).db.generations[g]);
  }

  /** Two cleaners never hold the fence of one collection at once, whatever leases expired in between. */
  lemma LeaseIsExclusive(content: Content, run: seq<Step>, q: nat, s: nat)
    requires q != s
    requires !CleanerOf(After(content, run), q).Waiting? && !CleanerOf(After(content, run), s).Waiting?
    requires CleanerOf(After(content, run), q).ticket.collection == CleanerOf(After(content, run), s).ticket.collection
    ensures !(Holds(After(content, run).db, CleanerOf(After(content, run), q).ticket)
              && Holds(After(content, run).db, CleanerOf(After(content, run), s).ticket))
  {
    RunKeeps(content, run);
    var w := After(content, run);
    assert DifferentTickets(w.cleaners[q], w.cleaners[s]);
  }

  /** A completed claim is final: nobody ever claims that collection again. */
  lemma CompletedClaimIsFinal(content: Content, run: seq<Step>, more: seq<Step>, c: Collection, owner: nat, now: nat)
    requires c in After(content, run).db.claims && After(content, run).db.claims[c].completed
    ensures c in After(content, run + more).db.claims
    ensures After(content, run + more).db.claims[c] == After(content, run).db.claims[c]
    ensures ClaimResult(After(content, run + more).db, c, owner, now) == None
  {
    RunForward(content, run, more);
    assert ClaimAdvances(After(content, run).db.claims[c], After(content, run + more).db.claims[c]);
  }

  // ---- idempotency ---------------------------------------------------------------------------------

  /** Whether this step commits the activation of g. */
  predicate CommitsActivation(w: World, step: Step, g: GenerationId) {
    && step.ActivateGeneration?
    && CreatorOf(w, step.p).Probed?
    && CreatorOf(w, step.p).reservation.generation == g
    && ActivateOutcomeOf(w.db, CreatorOf(w, step.p).reservation, 0).Activated?
  }

  function Commits(content: Content, run: seq<Step>, g: GenerationId): nat {
    if run == [] then 0
    else Commits(content, run[..|run|-1], g)
         + (if CommitsActivation(After(content, run[..|run|-1]), run[|run|-1], g) then 1 else 0)
  }

  /** Log and revisions stay; a knowledge base that is new starts at revision zero. */
  ghost predicate SameLog(a: Database, b: Database) {
    && b.mutations == a.mutations
    && (forall kb | kb in a.knowledgeBases :: kb in b.knowledgeBases)
    && forall kb | kb in b.knowledgeBases ::
         b.knowledgeBases[kb].mutationRevision == if kb in a.knowledgeBases then a.knowledgeBases[kb].mutationRevision else 0
  }

  lemma ReserveKeepsLog(db: Database, key: CreationKey, command: Command, check: ConfigurationCheck)
    ensures SameLog(db, Reserve(db, key, command, check))
  {}

  lemma MarkFailedKeepsLog(db: Database, r: Reservation, error: Error, points: Option<nat>)
    ensures SameLog(db, MarkFailed(db, r, error, points))
  {}

  lemma AbandonKeepsLog(db: Database, kb: nat, g: GenerationId)
    ensures SameLog(db, Abandon(db, kb, g))
  {}

  lemma ActivateLogs(db: Database, r: Reservation, now: nat, g: GenerationId)
    ensures Activations(Activate(db, r, 0, now).mutations, g)
            == Activations(db.mutations, g) + (if ActivateOutcomeOf(db, r, 0).Activated? && r.generation == g then 1 else 0)
  {
    if ActivateOutcomeOf(db, r, 0).Activated? {
      AppendMutation(db.mutations, ActivationMutationOf(db, r));
    }
  }

  /** The steps that leave the mutation log alone. */
  lemma LogStays(w: World, step: Step)
    requires !step.ActivateGeneration? && !step.ChangeElsewhere?
    ensures SameLog(w.db, Apply(w, step).db)
  {
    if step.ClaimCleanup? || step.AuthorizeCleanup? || step.CompleteCleanup? || step.ExpireCleanup? {
      CleanersKeepLog(w, step);
    } else {
      CreatorsKeepLog(w, step);
    }
  }

  lemma CreatorsKeepLog(w: World, step: Step)
    requires !step.ActivateGeneration? && !step.ChangeElsewhere?
    requires !step.ClaimCleanup? && !step.AuthorizeCleanup? && !step.CompleteCleanup? && !step.ExpireCleanup?
    ensures SameLog(w.db, Apply(w, step).db)
  {
    hide Reserve, ReserveOutcomeOf, MarkFailed, Abandon;
    match step
    case StartCreation(p, key, command, check) => ReserveKeepsLog(w.db, key, command, check);
    case RecordFailure(p) =>
      if CreatorOf(w, p).Failing? {
        MarkFailedKeepsLog(w.db, CreatorOf(w, p).reservation, CreatorOf(w, p).error, CreatorOf(w, p).points);
      }
    case AbandonGeneration(kb, g) => AbandonKeepsLog(w.db, kb, g);
    case _ =>
  }

  lemma CleanersKeepLog(w: World, step: Step)
    requires step.ClaimCleanup? || step.AuthorizeCleanup? || step.CompleteCleanup? || step.ExpireCleanup?
    ensures SameLog(w.db, Apply(w, step).db)
  {
    hide Deletable, ClaimAvailable, NextEpoch, Holds, Releases;
  }

  lemma StepCommits(w: World, step: Step, g: GenerationId)
    ensures Activations(Apply(w, step).db.mutations, g)
            == Activations(w.db.mutations, g) + (if CommitsActivation(w, step, g) then 1 else 0)
  {
    if step.ActivateGeneration? {
      if CreatorOf(w, step.p).Probed? {
        ActivateLogs(w.db, CreatorOf(w, step.p).reservation, step.now, g);
      }
    } else if step.ChangeElsewhere? {
      if step.kb in w.db.knowledgeBases {
        AppendMutation(w.db.mutations,
                       Mutation(OtherMutation(step.n), step.kb, w.db.knowledgeBases[step.kb].mutationRevision + 1, OtherChange));
      }
    } else {
      LogStays(w, step);
    }
  }

  /** The log records every commit, and only them. */
  lemma {:induction false} CommitsAreLogged(content: Content, run: seq<Step>, g: GenerationId)
    ensures Commits(content, run, g) == Activations(After(content, run).db.mutations, g)
  {
    if run != [] {
      CommitsAreLogged(content, run[..|run|-1], g);
      StepCommits(After(content, run[..|run|-1]), run[|run|-1], g);
    }
  }

  /**
   For one (actor, knowledge base, key) any number of concurrent and replayed runs commits at most one
   activation: one revision, one `index_config_changed` mutation and at most one backfill job.
   */
  lemma AtMostOneActivation(content: Content, run: seq<Step>, key: CreationKey)
    ensures Commits(content, run, StableGeneration(key)) <= 1
    ensures Activations(After(content, run).db.mutations, StableGeneration(key)) <= 1
    ensures Backfills(After(content, run).db.jobs, StableGeneration(key)) <= Commits(content, run, StableGeneration(key))
    ensures key in After(content, run).db.requests ==> After(content, run).db.requests[key].generation == StableGeneration(key)
  {
    RunKeeps(content, run);
    CommitsAreLogged(content, run, StableGeneration(key));
    var db := After(content, run).db;
    assert CountsMatch(db.mutations, db.jobs, db.generations, StableGeneration(key));
    assert key in db.requests ==> RequestExact(db.generations, key, db.requests[key]);
  }

  /** How many mutations of one knowledge base the log holds. */
  function LoggedFor(log: seq<Mutation>, kb: nat): nat {
    if log == [] then 0 else LoggedFor(log[..|log|-1], kb) + (if log[|log|-1].knowledgeBase == kb then 1 else 0)
  }

  predicate NumberedAt(log: seq<Mutation>, i: nat)
    requires i < |log|
  {
    log[i].revision == LoggedFor(log[..i+1], log[i].knowledgeBase)
  }

  /** The revision counts the log, and the log numbers each knowledge base's mutations from one without a gap. */
  ghost predicate Numbered(db: Database) {
    && (forall kb | kb in db.knowledgeBases :: db.knowledgeBases[kb].mutationRevision == LoggedFor(db.mutations, kb))
    && (forall i: nat | i < |db.mutations| :: NumberedAt(db.mutations, i))
  }

  lemma {:induction false} NoneLogged(log: seq<Mutation>, bases: map<nat, KnowledgeBase>, kb: nat)
    requires RevisionsBounded(log, bases) && kb !in bases
    ensures LoggedFor(log, kb) == 0
  {
    if log != [] {
      var front := log[..|log|-1];
      assert Logged(bases, log[|log|-1]);
      forall i | 0 <= i < |front| ensures Logged(bases, front[i]) {
        assert Logged(bases, log[i]) && front[i] == log[i];
      }
      NoneLogged(front, bases, kb);
    }
  }

  lemma SameLogNumbers(a: Database, b: Database)
    requires Numbered(a) && SameLog(a, b) && RevisionsBounded(a.mutations, a.knowledgeBases)
    ensures Numbered(b)
  {
    forall kb | kb in b.knowledgeBases ensures b.knowledgeBases[kb].mutationRevision == LoggedFor(b.mutations, kb) {
      if kb !in a.knowledgeBases {
        NoneLogged(a.mutations, a.knowledgeBases, kb);
      }
    }
  }

  /** One more mutation, at the next revision of its knowledge base. */
  lemma NextNumbers(a: Database, b: Database, m: Mutation)
    requires Numbered(a) && b.mutations == a.mutations + [m] && b.knowledgeBases.Keys == a.knowledgeBases.Keys
    requires m.knowledgeBase in a.knowledgeBases && m.revision == a.knowledgeBases[m.knowledgeBase].mutationRevision + 1
    requires forall kb | kb in b.knowledgeBases ::
      b.knowledgeBases[kb].mutationRevision == a.knowledgeBases[kb].mutationRevision + (if kb == m.knowledgeBase then 1 else 0)
    ensures Numbered(b)
  {
    var n := |a.mutations|;
    assert b.mutations[..n] == a.mutations;
    forall i: nat | i < n + 1 ensures NumberedAt(b.mutations, i) {
      if i < n {
        assert NumberedAt(a.mutations, i);
        assert b.mutations[..i+1] == a.mutations[..i+1];
      } else {
        assert b.mutations[..n+1] == b.mutations;
      }
    }
  }

  lemma PromoteNumbers(db: Database, r: Reservation, now: nat)
    requires Numbered(db) && RowsPresent(db, r)
    ensures Numbered(Promote(db, r, now))
  {
    hide Enrolment, PromotedGeneration, BackfillJob;
    NextNumbers(db, Promote(db, r, now), ActivationMutationOf(db, r));
  }

  lemma StepNumbers(w: World, step: Step)
    requires Inv(w.db) && Numbered(w.db)
    ensures Numbered(Apply(w, step).db)
  {
    hide Numbered, Promote;
    if step.ActivateGeneration? {
      if CreatorOf(w, step.p).Probed? {
        ActivateNumbers(w.db, CreatorOf(w, step.p).reservation, step.now);
      }
    } else if step.ChangeElsewhere? {
      if step.kb in w.db.knowledgeBases {
        NextNumbers(w.db, Apply(w, step).db,
                    Mutation(OtherMutation(step.n), step.kb, w.db.knowledgeBases[step.kb].mutationRevision + 1, OtherChange));
      }
    } else {
      LogStays(w, step);
      SameLogNumbers(w.db, Apply(w, step).db);
    }
  }

  lemma ActivateNumbers(db: Database, r: Reservation, now: nat)
    requires Inv(db) && Numbered(db)
    ensures Numbered(Activate(db, r, 0, now))
  {
    var outcome := ActivateOutcomeOf(db, r, 0);
    if outcome.Activated? {
      PromoteNumbers(db, r, now);
    } else if outcome.Conflict? {
      SameLogNumbers(db, FailCreation(db, r.key.knowledgeBase, r.key, r.generation, outcome.error));
    }
  }

  /**
   In every reachable database a knowledge base's revision is the number of its logged mutations, and the
   log gives its mutations the revisions 1, 2, 3, ... in order: no revision is skipped, shared or spent
   without an entry, whether by an activation or by another change.
   */
  lemma {:induction false} RevisionsHaveNoGaps(content: Content, run: seq<Step>)
    ensures Numbered(After(content, run).db)
  {
    if run != [] {
      hide Numbered, Apply, WorldInv;
      var front := run[..|run|-1];
      RevisionsHaveNoGaps(content, front);
      RunKeeps(content, front);
      InvOf(After(content, front));
      StepNumbers(After(content, front), run[|run|-1]);
    }
  }

  lemma InvOf(w: World)
    requires WorldInv(w)
    ensures Inv(w.db)
  {}

  /**
   A replay of a succeeded request returns the generation exactly when that generation is still the
   active one; once a cutover has superseded it, the replay is an internal error instead.
   */
  lemma ReplayOfSuccess(content: Content, run: seq<Step>, key: CreationKey, check: ConfigurationCheck)
    requires key in After(content, run).db.requests
    requires After(content, run).db.requests[key].state.Succeeded?
    ensures var db := After(content, run).db;
            var g := StableGeneration(key);
            key.knowledgeBase in db.knowledgeBases &&
            var outcome := ReserveOutcomeOf(db, key, db.requests[key].fingerprint, check);
            && (outcome == Replayed(g) <==> db.knowledgeBases[key.knowledgeBase].active == Some(g))
            && (outcome != Replayed(g) ==> outcome == Refused(Internal))
  {
    RunKeeps(content, run);
    var db := After(content, run).db;
    assert RequestExact(db.generations, key, db.requests[key]);
    assert Named(db.knowledgeBases, StableGeneration(key), db.generations[StableGeneration(key)]);
    assert Names(db.generations, key.knowledgeBase, db.knowledgeBases[key.knowledgeBase].active, Active);
    var c := Collection(key.knowledgeBase, StableGeneration(key));
    assert c in db.claims ==> Deletable(db, c);
  }

  /** The internal-error branches that guard a completed claim in `_reserve` and `_activate` are unreachable. */
  lemma CompletedClaimNeverMeetsSuccess(content: Content, run: seq<Step>, key: CreationKey)
    requires key in After(content, run).db.requests
    requires Collection(key.knowledgeBase, StableGeneration(key)) in After(content, run).db.claims
    ensures !After(content, run).db.requests[key].state.Succeeded?
    ensures StableGeneration(key) in After(content, run).db.generations
    ensures After(content, run).db.generations[StableGeneration(key)].status == Failed
  {
    RunKeeps(content, run);
    var db := After(content, run).db;
    assert RequestExact(db.generations, key, db.requests[key]);
    assert Deletable(db, Collection(key.knowledgeBase, StableGeneration(key)));
  }
}
