/**
 What runs of the saga reach: a creation or a cleanup left alone succeeds exactly under conditions its
 caller can check, a cutover ends the replays of the key it supersedes, and a creator that comes back
 after a completed cleanup leaves a collection nobody will ever claim.
 */
module GenerationRuns {
  import opened Prelude
  import opened Content
  import opened GenerationModel
  import opened SagaInvariant
  import opened GenerationSaga
  import opened GenerationTheorems

  /** The world after more steps. */
  function Continue(w: World, more: seq<Step>): World {
    if more == [] then w else Apply(Continue(w, more[..|more|-1]), more[|more|-1])
  }

  lemma {:induction false} AfterContinues(content: Content, run: seq<Step>, more: seq<Step>)
    ensures After(content, run + more) == Continue(After(content, run), more)
  {
    hide Apply;
    if more == [] {
      assert run + more == run;
    } else {
      assert (run + more)[..|run + more|-1] == run + more[..|more|-1];
      AfterContinues(content, run, more[..|more|-1]);
    }
  }

  /** A run given world by world. */
  lemma {:induction false} Chain(worlds: seq<World>, run: seq<Step>)
    requires |worlds| == |run| + 1
    requires forall i | 0 <= i < |run| :: Apply(worlds[i], run[i]) == worlds[i + 1]
    ensures Continue(worlds[0], run) == worlds[|run|]
  {
    hide Apply;
    if run != [] {
      var front, n := run[..|run|-1], |run| - 1;
      forall i | 0 <= i < n ensures Apply(worlds[..n+1][i], front[i]) == worlds[..n+1][i + 1] {
        assert Apply(worlds[i], run[i]) == worlds[i + 1];
      }
      Chain(worlds[..n+1], front);
      assert Apply(worlds[n], run[n]) == worlds[n + 1];
    }
  }

  // ---- a creation left alone ---------------------------------------------------------------------------------

  /** The steps of one creator, when no call fails. */
  function Creation(p: nat, key: CreationKey, command: Command, check: ConfigurationCheck, now: nat): seq<Step> {
    [StartCreation(p, key, command, check), EnsureCollection(p, true), CountPoints(p), Probe(p, None), ActivateGeneration(p, now)]
  }

  function TargetOf(key: CreationKey): Collection { Collection(key.knowledgeBase, StableGeneration(key)) }

  predicate Creatable(w: World, key: CreationKey, check: ConfigurationCheck) {
    && Admissible(w.db, key, check)
    && (TargetOf(key) in w.store ==> w.store[TargetOf(key)] == 0)
  }

  predicate Admissible(db: Database, key: CreationKey, check: ConfigurationCheck) {
    && key.knowledgeBase in db.knowledgeBases
    && db.knowledgeBases[key.knowledgeBase].status == KbActive
    && db.knowledgeBases[key.knowledgeBase].pending.None?
    && check.Usable?
    && TargetOf(key) !in db.claims
  }

  /**
   The request holds its command and has succeeded, its generation has the profile of the command, the hash of
   the configuration check and the filter revision of the knowledge base, and is the active one at one more revision.
   */
  ghost predicate DatabaseCreatedBy(db: Database, after: Database, key: CreationKey, command: Command, check: ConfigurationCheck)
    requires key.knowledgeBase in db.knowledgeBases
  {
    var kb, g := db.knowledgeBases[key.knowledgeBase], StableGeneration(key);
    var revision := kb.mutationRevision + 1;
    && check.Usable?
    && after.requests == db.requests[key := CreationRequest(command, g, Succeeded)]
    && g in after.generations
    && after.generations[g] == Generation(key.knowledgeBase, command.profile, check.embeddingHash, kb.filterRevision, Active, revision,
                                          Some(revision), Some(0), Some(0), Some(ManifestHash(key.knowledgeBase, g, revision, 0)), None)
    && after.knowledgeBases == db.knowledgeBases[key.knowledgeBase :=
         kb.(active := Some(StableGeneration(key)), pending := None, mutationRevision := kb.mutationRevision + 1)]
    && after.claims == db.claims
  }

  /** The world once the creation has committed. */
  ghost predicate CreatedBy(w: World, after: World, p: nat, key: CreationKey, command: Command, check: ConfigurationCheck)
    requires key.knowledgeBase in w.db.knowledgeBases
  {
    && DatabaseCreatedBy(w.db, after.db, key, command, check)
    && after.store == w.store[TargetOf(key) := 0]
    && after.creators == w.creators[p := Finished]
  }

  lemma NewKeyHasNoRow(db: Database, key: CreationKey)
    requires Inv(db) && key !in db.requests
    ensures StableGeneration(key) !in db.generations
  {
    if StableGeneration(key) in db.generations {
      RowIsRequested(db, StableGeneration(key));
      assert false;
    }
  }

  lemma RowIsRequested(db: Database, g: GenerationId)
    requires Inv(db) && g in db.generations
    ensures Requested(db.requests, g)
  {}

  lemma NewKeyIsReserved(db: Database, key: CreationKey, command: Command, check: ConfigurationCheck)
    requires Inv(db) && key !in db.requests
    ensures ReserveOutcomeOf(db, key, command, check).Reserved? <==> Admissible(db, key, check)
    ensures Admissible(db, key, check) ==>
              ReserveOutcomeOf(db, key, command, check)
              == Reserved(Reservation(key, StableGeneration(key), db.knowledgeBases[key.knowledgeBase].filterRevision))
    ensures !Admissible(db, key, check) ==> Reserve(db, key, command, check) == db
  {
    NewKeyHasNoRow(db, key);
    if key.knowledgeBase in db.knowledgeBases {
      assert Names(db.generations, key.knowledgeBase, db.knowledgeBases[key.knowledgeBase].pending, Building);
      if BuildingExists(db, key.knowledgeBase) {
        var g :| g in db.generations && db.generations[g].knowledgeBase == key.knowledgeBase && db.generations[g].status == Building;
        assert Named(db.knowledgeBases, g, db.generations[g]);
      }
    }
    hide Inv;
  }

  /** A reserved generation is activated if nothing has changed since. */
  lemma ReservedIsActivated(db: Database, key: CreationKey, command: Command, check: ConfigurationCheck)
    requires Inv(db) && key !in db.requests && Admissible(db, key, check)
    ensures var r := Reservation(key, StableGeneration(key), db.knowledgeBases[key.knowledgeBase].filterRevision);
            ActivateOutcomeOf(Reserve(db, key, command, check), r, 0) == Activated(StableGeneration(key))
  {
    NewKeyIsReserved(db, key, command, check);
    assert Names(db.generations, key.knowledgeBase, db.knowledgeBases[key.knowledgeBase].active, Active);
    NewKeyHasNoRow(db, key);
    hide Inv;
  }

  lemma SetTwice(w: World, p: nat, a: Creator, b: Creator)
    ensures SetCreator(SetCreator(w, p, a), p, b) == SetCreator(w, p, b)
  {}

  /** From the reservation to the probe. */
  lemma CollectionChecked(w: World, p: nat, r: Reservation, here: World)
    requires here == SetCreator(w, p, Holding(r)) && (r.Target() in w.store ==> w.store[r.Target()] == 0)
    ensures Continue(here, [EnsureCollection(p, true), CountPoints(p), Probe(p, None)])
            == SetCreator(w.(store := w.store[r.Target() := 0]), p, Probed(r))
  {
    var stored := w.(store := w.store[r.Target() := 0]);
    assert r.Target() in w.store ==> w.store == w.store[r.Target() := 0];
    SetTwice(w, p, Holding(r), Collected(r));
    SetTwice(stored, p, Collected(r), Counted(r));
    SetTwice(stored, p, Counted(r), Probed(r));
    var w1, w2, w3 := SetCreator(stored, p, Collected(r)), SetCreator(stored, p, Counted(r)), SetCreator(stored, p, Probed(r));
    assert Apply(here, EnsureCollection(p, true)) == w1;
    assert Apply(w1, CountPoints(p)) == w2;
    hide SetCreator;
    Chain([here, w1, w2, w3], [EnsureCollection(p, true), CountPoints(p), Probe(p, None)]);
  }

  lemma {:induction false} ContinueJoins(w: World, a: seq<Step>, b: seq<Step>)
    ensures Continue(w, a + b) == Continue(Continue(w, a), b)
  {
    hide Apply;
    if b == [] {
      assert a + b == a;
    } else {
      assert (a + b)[..|a + b|-1] == a + b[..|b|-1];
      ContinueJoins(w, a, b[..|b|-1]);
    }
  }

  lemma StartReserves(w: World, p: nat, key: CreationKey, command: Command, check: ConfigurationCheck, r: Reservation)
    requires CreatorOf(w, p) == Idle && ReserveOutcomeOf(w.db, key, command, check) == Reserved(r)
    ensures Apply(w, StartCreation(p, key, command, check)) == SetCreator(w.(db := Reserve(w.db, key, command, check)), p, Holding(r))
  {
    hide Reserve, ReserveOutcomeOf;
  }

  lemma ActivateCommits(w: World, p: nat, r: Reservation, now: nat)
    requires ActivateOutcomeOf(w.db, r, 0).Activated?
    ensures Apply(SetCreator(w, p, Probed(r)), ActivateGeneration(p, now))
            == SetCreator(w.(db := Promote(w.db, r, now)), p, Finished)
  {
    SetTwice(w.(db := Promote(w.db, r, now)), p, Probed(r), Finished);
    hide ActivateOutcomeOf, Promote;
  }

  lemma CreationSucceeds(w: World, p: nat, key: CreationKey, command: Command, check: ConfigurationCheck, now: nat)
    requires WorldInv(w) && CreatorOf(w, p) == Idle && key !in w.db.requests && Creatable(w, key, check)
    ensures CreatedBy(w, Continue(w, Creation(p, key, command, check, now)), p, key, command, check)
  {
    var r := Reservation(key, StableGeneration(key), w.db.knowledgeBases[key.knowledgeBase].filterRevision);
    var db := Reserve(w.db, key, command, check);
    NewKeyIsReserved(w.db, key, command, check);
    ReservedIsActivated(w.db, key, command, check);
    PromotionCreates(w.db, key, command, check, now);
    hide WorldInv, Reserve, ReserveOutcomeOf, ActivateOutcomeOf, Promote, DatabaseCreatedBy, Inv, Continue, Apply;
    var w0 := w.(db := db);
    var stored := w0.(store := w.store[TargetOf(key) := 0]);
    var w5 := SetCreator(stored.(db := Promote(db, r, now)), p, Finished);
    CollectionChecked(w0, p, r, SetCreator(w0, p, Holding(r)));
    StartReserves(w, p, key, command, check, r);
    ActivateCommits(stored, p, r, now);
    CreationJoins(w, p, key, command, check, now, SetCreator(w0, p, Holding(r)), SetCreator(stored, p, Probed(r)), w5);
  }

  lemma CreationJoins(w: World, p: nat, key: CreationKey, command: Command, check: ConfigurationCheck, now: nat,
                      w1: World, w4: World, w5: World)
    requires Apply(w, StartCreation(p, key, command, check)) == w1
    requires Continue(w1, [EnsureCollection(p, true), CountPoints(p), Probe(p, None)]) == w4
    requires Apply(w4, ActivateGeneration(p, now)) == w5
    ensures Continue(w, Creation(p, key, command, check, now)) == w5
  {
    hide Apply, Continue;
    var start, middle := [StartCreation(p, key, command, check)], [EnsureCollection(p, true), CountPoints(p), Probe(p, None)];
    Chain([w, w1], start);
    Chain([w4, w5], [ActivateGeneration(p, now)]);
    ContinueJoins(w, start, middle);
    ContinueJoins(w, start + middle, [ActivateGeneration(p, now)]);
    assert Creation(p, key, command, check, now) == start + middle + [ActivateGeneration(p, now)];
  }

  lemma PromoteFields(db: Database, r: Reservation, now: nat)
    requires RowsPresent(db, r)
    ensures var after, kb := Promote(db, r, now), db.knowledgeBases[r.key.knowledgeBase];
            && after.requests == db.requests[r.key := db.requests[r.key].(state := Succeeded)]
            && after.knowledgeBases == db.knowledgeBases[r.key.knowledgeBase :=
                 kb.(mutationRevision := kb.mutationRevision + 1, pending := None, active := Some(r.generation))]
            && after.claims == db.claims
            && r.generation in after.generations && after.generations[r.generation] == PromotedGeneration(db, r)
  {
    hide Enrolment, BackfillJob, ActivationMutationOf, PromotedGeneration;
  }

  lemma PromotionCreates(db: Database, key: CreationKey, command: Command, check: ConfigurationCheck, now: nat)
    requires Inv(db) && key !in db.requests && Admissible(db, key, check)
    ensures var r := Reservation(key, StableGeneration(key), db.knowledgeBases[key.knowledgeBase].filterRevision);
            var reserved := Reserve(db, key, command, check);
            RowsPresent(reserved, r) &&
            DatabaseCreatedBy(db, Promote(reserved, r, now), key, command, check)
  {
    NewKeyIsReserved(db, key, command, check);
    var r := Reservation(key, StableGeneration(key), db.knowledgeBases[key.knowledgeBase].filterRevision);
    var reserved := Reserve(db, key, command, check);
    var kb := db.knowledgeBases[key.knowledgeBase];
    assert reserved.knowledgeBases == db.knowledgeBases[key.knowledgeBase := kb.(pending := Some(StableGeneration(key)))];
    assert reserved.requests == db.requests[key := CreationRequest(command, StableGeneration(key), RequestBuilding)];
    assert RowsPresent(reserved, r) && reserved.claims == db.claims;
    hide Inv, Promote, Reserve, ReserveOutcomeOf, Admissible;
    PromoteFields(reserved, r, now);
  }

  lemma CreationFails(w: World, p: nat, key: CreationKey, command: Command, check: ConfigurationCheck, now: nat)
    requires WorldInv(w) && CreatorOf(w, p) == Idle && key !in w.db.requests && !Creatable(w, key, check)
    ensures var db := Continue(w, Creation(p, key, command, check, now)).db;
            key in db.requests ==> !db.requests[key].state.Succeeded?
  {
    NewKeyIsReserved(w.db, key, command, check);
    if Admissible(w.db, key, check) {
      CollectionNotEmptyFails(w, p, key, command, check, now);
    } else {
      var w1 := SetCreator(w, p, Finished);
      hide WorldInv, Inv, Reserve, ReserveOutcomeOf;
      Chain([w, w1, w1, w1, w1, w1], Creation(p, key, command, check, now));
    }
  }

  lemma NotEmptyFails(w: World, p: nat, r: Reservation, here: World, now: nat)
    requires here == SetCreator(w, p, Holding(r)) && r.Target() in w.store && w.store[r.Target()] != 0
    ensures Continue(here, [EnsureCollection(p, true), CountPoints(p), Probe(p, None), ActivateGeneration(p, now)]).db == w.db
  {
    var failing := Failing(r, CollectionNotEmpty, Some(w.store[r.Target()]));
    SetTwice(w, p, Holding(r), Collected(r));
    SetTwice(w, p, Collected(r), failing);
    var w2, w3 := SetCreator(w, p, Collected(r)), SetCreator(w, p, failing);
    assert Apply(here, EnsureCollection(p, true)) == w2;
    assert Apply(w2, CountPoints(p)) == w3;
    Chain([here, w2, w3, w3, w3], [EnsureCollection(p, true), CountPoints(p), Probe(p, None), ActivateGeneration(p, now)]);
    hide Continue, Apply;
  }

  lemma CollectionNotEmptyFails(w: World, p: nat, key: CreationKey, command: Command, check: ConfigurationCheck, now: nat)
    requires WorldInv(w) && CreatorOf(w, p) == Idle && key !in w.db.requests && Admissible(w.db, key, check)
    requires TargetOf(key) in w.store && w.store[TargetOf(key)] != 0
    ensures var db := Continue(w, Creation(p, key, command, check, now)).db;
            key in db.requests ==> !db.requests[key].state.Succeeded?
  {
    NewKeyIsReserved(w.db, key, command, check);
    var r := Reservation(key, StableGeneration(key), w.db.knowledgeBases[key.knowledgeBase].filterRevision);
    var w0 := w.(db := Reserve(w.db, key, command, check));
    assert w0.db.requests[key].state.RequestBuilding?;
    hide WorldInv, Inv, Reserve, ReserveOutcomeOf, Apply, Continue;
    StartReserves(w, p, key, command, check, r);
    NotEmptyFails(w0, p, r, SetCreator(w0, p, Holding(r)), now);
    var start, rest := [StartCreation(p, key, command, check)], Creation(p, key, command, check, now)[1..];
    Chain([w, SetCreator(w0, p, Holding(r))], start);
    ContinueJoins(w, start, rest);
    assert start + rest == Creation(p, key, command, check, now);
  }

  /**
   From any reachable world, a new request whose calls all answer and whom nobody disturbs activates its
   generation exactly when the knowledge base is active with nothing pending, the configuration is usable,
   the collection is under no cleanup claim, and what is stored under its name is empty.
   */
  lemma CreationLeftAlone(content: Content, run: seq<Step>, p: nat, key: CreationKey, command: Command,
                          check: ConfigurationCheck, now: nat)
    requires CreatorOf(After(content, run), p) == Idle && key !in After(content, run).db.requests
    ensures var w := After(content, run);
            var after := After(content, run + Creation(p, key, command, check, now));
            && (Creatable(w, key, check) <==> key in after.db.requests && after.db.requests[key].state.Succeeded?)
            && (Creatable(w, key, check) ==> CreatedBy(w, after, p, key, command, check))
  {
    RunKeeps(content, run);
    AfterContinues(content, run, Creation(p, key, command, check, now));
    hide After, Continue, WorldInv;
    if Creatable(After(content, run), key, check) {
      CreationSucceeds(After(content, run), p, key, command, check, now);
    } else {
      CreationFails(After(content, run), p, key, command, check, now);
    }
  }

  // ---- a cutover and the replays of the key it supersedes -------------------------------------------------------

  /**
   Once another creation has been activated on the same knowledge base, every replay of the first key is
   refused with an internal error, whatever the configuration looks like by then.
   */
  lemma CutoverEndsReplay(content: Content, run: seq<Step>, p: nat, first: CreationKey, key: CreationKey, command: Command,
                          check: ConfigurationCheck, now: nat, again: ConfigurationCheck)
    requires CreatorOf(After(content, run), p) == Idle && key !in After(content, run).db.requests
    requires Creatable(After(content, run), key, check)
    requires first in After(content, run).db.requests && After(content, run).db.requests[first].state.Succeeded?
    requires first.knowledgeBase == key.knowledgeBase
    ensures var db := After(content, run + Creation(p, key, command, check, now)).db;
            && first in db.requests && db.requests[first].state.Succeeded?
            && ReserveOutcomeOf(db, first, db.requests[first].fingerprint, again) == Refused(Internal)
            && StableGeneration(first) in db.generations && db.generations[StableGeneration(first)].status == Retiring
  {
    var more := Creation(p, key, command, check, now);
    CreationLeftAlone(content, run, p, key, command, check, now);
    RunKeeps(content, run + more);
    hide Creation, Creatable, After, ReserveOutcomeOf;
    ReplayOfSuccess(content, run + more, first, again);
    SupersededRetires(After(content, run + more).db, first);
  }

  /** The generation of a succeeded request that the active pointer does not name is retiring. */
  lemma SupersededRetires(db: Database, key: CreationKey)
    requires Inv(db) && key in db.requests && db.requests[key].state.Succeeded?
    requires key.knowledgeBase in db.knowledgeBases && db.knowledgeBases[key.knowledgeBase].active != Some(StableGeneration(key))
    ensures StableGeneration(key) in db.generations && db.generations[StableGeneration(key)].status == Retiring
  {
    assert RequestExact(db.generations, key, db.requests[key]);
    assert Named(db.knowledgeBases, StableGeneration(key), db.generations[StableGeneration(key)]);
  }

  /** Two creations on one knowledge base, one after the other. */
  function TwoCreations(command: Command, hash: string): seq<Step> {
    [AddKnowledgeBase(0)] + Creation(0, CreationKey(0, 0, "first"), command, Usable(hash), 0)
    + Creation(1, CreationKey(0, 0, "second"), command, Usable(hash), 0)
  }

  /** Such a world is reached: both creations succeed, the first generation retires, and its key cannot be replayed. */
  lemma ReplayAfterCutover(content: Content, command: Command, hash: string, again: ConfigurationCheck)
    ensures var first, second := CreationKey(0, 0, "first"), CreationKey(0, 0, "second");
            var db := After(content, TwoCreations(command, hash)).db;
            && first in db.requests && db.requests[first].state.Succeeded?
            && second in db.requests && db.requests[second].state.Succeeded?
            && StableGeneration(first) in db.generations && db.generations[StableGeneration(first)].status == Retiring
            && 0 in db.knowledgeBases && db.knowledgeBases[0].active == Some(StableGeneration(second))
            && ReserveOutcomeOf(db, first, db.requests[first].fingerprint, again) == Refused(Internal)
  {
    var first, second := CreationKey(0, 0, "first"), CreationKey(0, 0, "second");
    var run := [AddKnowledgeBase(0)];
    OneKnowledgeBase(content);
    hide Creation, After, ReserveOutcomeOf;
    CreationLeftAlone(content, run, 0, first, command, Usable(hash), 0);
    var run' := run + Creation(0, first, command, Usable(hash), 0);
    assert Creatable(After(content, run'), second, Usable(hash));
    CreationLeftAlone(content, run', 1, second, command, Usable(hash), 0);
    CutoverEndsReplay(content, run', 1, first, second, command, Usable(hash), 0, again);
    assert run' + Creation(1, second, command, Usable(hash), 0) == TwoCreations(command, hash);
  }

  lemma OneKnowledgeBase(content: Content)
    ensures After(content, [AddKnowledgeBase(0)])
            == World(EmptyDatabase(content).(knowledgeBases := map[0 := KnowledgeBase(KbActive, 0, 0, None, None)]), map[], {}, map[], map[])
  {
    assert [AddKnowledgeBase(0)][..0] == [];
  }

  // ---- a cleanup left alone --------------------------------------------------------------------------------------

  /** The steps of one cleaner, when the delete lands and returns. */
  function Cleanup(q: nat, c: Collection, owner: nat, now: nat, duration: nat): seq<Step> {
    [ClaimCleanup(q, c, owner, now, duration), AuthorizeCleanup(q, now), SendDelete(q), DeleteLands(c), DeleteReturns(q),
     CompleteCleanup(q)]
  }

  predicate Completed(db: Database, c: Collection) { c in db.claims && db.claims[c].completed }

  ghost predicate CleanedBy(w: World, after: World, q: nat, c: Collection) {
    && after.store == w.store - {c} && Completed(after.db, c)
    && after.creators == w.creators && after.cleaners == w.cleaners[q := Waiting]
    && after.db == w.db.(claims := after.db.claims)
  }

  lemma SetCleanerTwice(w: World, q: nat, a: Cleaner, b: Cleaner)
    ensures SetCleaner(SetCleaner(w, q, a), q, b) == SetCleaner(w, q, b)
  {}

  lemma ClaimAuthorizes(w: World, q: nat, c: Collection, owner: nat, now: nat, duration: nat, t: ClaimTicket)
    requires CleanerOf(w, q) == Waiting && ClaimResult(w.db, c, owner, now) == Some(t)
    requires var db := Claim(w.db, c, owner, now, duration); Authorized(db, t, now) && Authorize(db, t, now) == db
    ensures Continue(w, [ClaimCleanup(q, c, owner, now, duration), AuthorizeCleanup(q, now)])
            == SetCleaner(w.(db := Claim(w.db, c, owner, now, duration)), q, Cleared(t))
  {
    var w0 := w.(db := Claim(w.db, c, owner, now, duration));
    hide Claim, Authorized, Authorize, Continue, ClaimResult;
    SetCleanerTwice(w0, q, Claimed(t), Cleared(t));
    assert Apply(w, ClaimCleanup(q, c, owner, now, duration)) == SetCleaner(w0, q, Claimed(t));
    assert Apply(SetCleaner(w0, q, Claimed(t)), AuthorizeCleanup(q, now)) == SetCleaner(w0, q, Cleared(t));
    hide Apply, SetCleaner;
    Chain([w, SetCleaner(w0, q, Claimed(t)), SetCleaner(w0, q, Cleared(t))],
          [ClaimCleanup(q, c, owner, now, duration), AuthorizeCleanup(q, now)]);
  }

  lemma DeleteRemoves(w: World, q: nat, t: ClaimTicket)
    ensures var gone := w.(deletesSent := w.deletesSent + {t.collection}, store := w.store - {t.collection});
            Continue(SetCleaner(w, q, Cleared(t)), [SendDelete(q), DeleteLands(t.collection), DeleteReturns(q)])
            == SetCleaner(gone, q, Deleted(t))
  {
    var sent := w.(deletesSent := w.deletesSent + {t.collection});
    var gone := sent.(store := w.store - {t.collection});
    hide Continue;
    SetCleanerTwice(sent, q, Cleared(t), Deleting(t));
    SetCleanerTwice(gone, q, Deleting(t), Deleted(t));
    var w2, w3, w4, w5 := SetCleaner(w, q, Cleared(t)), SetCleaner(sent, q, Deleting(t)), SetCleaner(gone, q, Deleting(t)),
                          SetCleaner(gone, q, Deleted(t));
    assert Apply(w2, SendDelete(q)) == w3 && Apply(w3, DeleteLands(t.collection)) == w4 && Apply(w4, DeleteReturns(q)) == w5;
    hide Apply, SetCleaner;
    Chain([w2, w3, w4, w5], [SendDelete(q), DeleteLands(t.collection), DeleteReturns(q)]);
  }

  lemma CleanupCompletes(w: World, q: nat, t: ClaimTicket)
    ensures Continue(SetCleaner(w, q, Deleted(t)), [CompleteCleanup(q)]) == SetCleaner(w.(db := Complete(w.db, t)), q, Waiting)
  {
    hide Continue, Complete;
    SetCleanerTwice(w.(db := Complete(w.db, t)), q, Deleted(t), Waiting);
    var here, done := SetCleaner(w, q, Deleted(t)), SetCleaner(w.(db := Complete(w.db, t)), q, Waiting);
    assert Apply(here, CompleteCleanup(q)) == done;
    hide Apply, SetCleaner;
    Chain([here, done], [CompleteCleanup(q)]);
  }

  lemma CleanupRuns(w: World, q: nat, c: Collection, owner: nat, now: nat, duration: nat, t: ClaimTicket, w0: World)
    requires CleanerOf(w, q) == Waiting && ClaimResult(w.db, c, owner, now) == Some(t) && t.collection == c
    requires w0 == w.(db := Claim(w.db, c, owner, now, duration))
    requires Authorized(w0.db, t, now) && Authorize(w0.db, t, now) == w0.db
    ensures var gone := w0.(deletesSent := w.deletesSent + {c}, store := w.store - {c});
            Continue(w, Cleanup(q, c, owner, now, duration)) == SetCleaner(gone.(db := Complete(w0.db, t)), q, Waiting)
  {
    var gone := w0.(deletesSent := w.deletesSent + {c}, store := w.store - {c});
    hide Claim, Complete, Authorized, Authorize, Continue, ClaimResult, Apply, SetCleaner;
    ClaimAuthorizes(w, q, c, owner, now, duration, t);
    DeleteRemoves(w0, q, t);
    CleanupCompletes(gone, q, t);
    var claim, delete := [ClaimCleanup(q, c, owner, now, duration), AuthorizeCleanup(q, now)],
                         [SendDelete(q), DeleteLands(c), DeleteReturns(q)];
    ContinueJoins(w, claim, delete);
    ContinueJoins(w, claim + delete, [CompleteCleanup(q)]);
    assert Cleanup(q, c, owner, now, duration) == claim + delete + [CompleteCleanup(q)];
  }

  /** A collection without a serving or building generation is removed by a cleaner that is left alone. */
  lemma CleanupSucceeds(w: World, q: nat, c: Collection, owner: nat, now: nat, duration: nat)
    requires CleanerOf(w, q) == Waiting && duration > 0 && ClaimResult(w.db, c, owner, now).Some?
    ensures CleanedBy(w, Continue(w, Cleanup(q, c, owner, now, duration)), q, c)
  {
    ClaimHolds(w.db, c, owner, now, duration);
    hide Claim, Complete, Authorized, Authorize, Continue, ClaimResult, Completed, Cleanup;
    CleanupRuns(w, q, c, owner, now, duration, ClaimTicket(c, owner, NextEpoch(w.db, c)),
                w.(db := Claim(w.db, c, owner, now, duration)));
  }

  lemma ClaimHolds(db: Database, c: Collection, owner: nat, now: nat, duration: nat)
    requires duration > 0 && ClaimResult(db, c, owner, now).Some?
    ensures var t := ClaimTicket(c, owner, NextEpoch(db, c));
            var claimed := Claim(db, c, owner, now, duration);
            && ClaimResult(db, c, owner, now) == Some(t)
            && Authorized(claimed, t, now) && Authorize(claimed, t, now) == claimed
            && Completed(Complete(claimed, t), c)
            && Complete(claimed, t) == db.(claims := Complete(claimed, t).claims)
  {}

  /**
   A collection that may be deleted can be claimed for cleanup at this or some later moment exactly when
   its claim is not completed. So a completed claim takes whatever is stored under that name later out of
   the reach of every cleaner.
   */
  lemma ClaimableExactly(content: Content, run: seq<Step>, c: Collection)
    requires Deletable(After(content, run).db, c)
    ensures !Completed(After(content, run).db, c) <==>
            exists more, owner, now :: ClaimResult(After(content, run + more).db, c, owner, now).Some?
  {
    var db := After(content, run).db;
    if Completed(db, c) {
      forall more, owner, now ensures ClaimResult(After(content, run + more).db, c, owner, now) == None {
        CompletedClaimIsFinal(content, run, more, c, owner, now);
      }
    } else {
      assert run + [] == run;
      assert ClaimResult(After(content, run + []).db, c, 0, if c in db.claims then db.claims[c].expires else 0).Some?;
    }
  }

  /**
   A creator that still holds its reservation when the cleanup of its collection has completed creates the
   collection again: nobody serves it, nobody can ever claim it, and only a delete sent before can remove it.
   */
  lemma SlowCreatorLeaks(content: Content, run: seq<Step>, p: nat, more: seq<Step>)
    requires CreatorOf(After(content, run), p).Holding?
    requires Completed(After(content, run).db, CreatorOf(After(content, run), p).reservation.Target())
    requires DeleteLands(CreatorOf(After(content, run), p).reservation.Target()) !in more
    ensures var c := CreatorOf(After(content, run), p).reservation.Target();
            var w := After(content, run + [EnsureCollection(p, true)] + more);
            && c in w.store && Deletable(w.db, c) && Completed(w.db, c)
            && forall owner, now :: ClaimResult(w.db, c, owner, now) == None
  {
    var c := CreatorOf(After(content, run), p).reservation.Target();
    var run' := run + [EnsureCollection(p, true)];
    assert run'[..|run'|-1] == run;
    assert c in After(content, run').store;
    hide Apply, Deletable, ClaimResult;
    StoredStays(content, run', more, c);
    RunKeeps(content, run' + more);
    assert run' + more == run + ([EnsureCollection(p, true)] + more);
    forall owner, now ensures ClaimResult(After(content, run' + more).db, c, owner, now) == None {
      CompletedClaimIsFinal(content, run, [EnsureCollection(p, true)] + more, c, owner, now);
    }
    CompletedClaimIsFinal(content, run, [EnsureCollection(p, true)] + more, c, 0, 0);
  }

  lemma {:induction false} StoredStays(content: Content, run: seq<Step>, more: seq<Step>, c: Collection)
    requires c in After(content, run).store && DeleteLands(c) !in more
    ensures c in After(content, run + more).store
  {
    if more == [] {
      assert run + more == run;
    } else {
      var front := more[..|more|-1];
      assert (run + more)[..|run + more|-1] == run + front;
      assert forall step | step in front :: step in more;
      assert more[|more|-1] in more;
      hide Apply;
      StoredStays(content, run, front, c);
      StoreKeeps(After(content, run + front), more[|more|-1], c);
    }
  }

  // ---- a run that leaks -----------------------------------------------------------------------------------------------

  /** A creator stops for a while after its reservation; its generation is abandoned and the collection cleaned up. */
  function Abandonment(command: Command, hash: string): seq<Step> {
    var key := CreationKey(0, 0, "only");
    [AddKnowledgeBase(0), StartCreation(0, key, command, Usable(hash)), AbandonGeneration(0, StableGeneration(key))]
    + Cleanup(0, TargetOf(key), 0, 0, 1)
  }

  /** The creator goes on: the collection is stored, deletable, and its claim is completed. */
  lemma LeakIsReached(content: Content, command: Command, hash: string)
    ensures var c := TargetOf(CreationKey(0, 0, "only"));
            var w := After(content, Abandonment(command, hash) + [EnsureCollection(0, true)]);
            && c in w.store && Deletable(w.db, c) && Completed(w.db, c)
            && forall owner, now :: ClaimResult(w.db, c, owner, now) == None
  {
    var key := CreationKey(0, 0, "only");
    var run := Abandonment(command, hash);
    AbandonedAndCleaned(content, command, hash);
    SlowCreatorLeaks(content, run, 0, []);
    assert run + [EnsureCollection(0, true)] + [] == run + [EnsureCollection(0, true)];
  }

  lemma AbandonedAndCleaned(content: Content, command: Command, hash: string)
    ensures var key := CreationKey(0, 0, "only");
            var w := After(content, Abandonment(command, hash));
            CreatorOf(w, 0) == Holding(Reservation(key, StableGeneration(key), 0)) && Completed(w.db, TargetOf(key))
  {
    var key := CreationKey(0, 0, "only");
    var run := [AddKnowledgeBase(0), StartCreation(0, key, command, Usable(hash)), AbandonGeneration(0, StableGeneration(key))];
    var w := AfterAbandoning(content, command, hash);
    hide Cleanup, Apply, After, Continue;
    CleanupSucceeds(w, 0, TargetOf(key), 0, 0, 1);
    AfterContinues(content, run, Cleanup(0, TargetOf(key), 0, 0, 1));
  }

  lemma AfterAbandoning(content: Content, command: Command, hash: string) returns (w: World)
    ensures var key := CreationKey(0, 0, "only");
            && w == After(content, [AddKnowledgeBase(0), StartCreation(0, key, command, Usable(hash)),
                                    AbandonGeneration(0, StableGeneration(key))])
            && CreatorOf(w, 0) == Holding(Reservation(key, StableGeneration(key), 0)) && CleanerOf(w, 0) == Waiting
            && w.db.claims == map[] && Deletable(w.db, TargetOf(key))
  {
    var key := CreationKey(0, 0, "only");
    OneKnowledgeBase(content);
    RunKeeps(content, [AddKnowledgeBase(0)]);
    hide Inv, After;
    var w0 := After(content, [AddKnowledgeBase(0)]);
    var more := [StartCreation(0, key, command, Usable(hash)), AbandonGeneration(0, StableGeneration(key))];
    w := ReservedThenAbandoned(w0, key, command, hash);
    hide Apply, After, Continue, Deletable, Admissible, Inv, CreatorOf, CleanerOf;
    AfterContinues(content, [AddKnowledgeBase(0)], more);
    assert [AddKnowledgeBase(0)] + more == [AddKnowledgeBase(0), more[0], more[1]];
  }

  lemma ReservedThenAbandoned(w0: World, key: CreationKey, command: Command, hash: string) returns (w: World)
    requires Inv(w0.db) && CreatorOf(w0, 0) == Idle && CleanerOf(w0, 0) == Waiting
    requires key !in w0.db.requests && Admissible(w0.db, key, Usable(hash)) && w0.db.claims == map[]
    ensures w == Continue(w0, [StartCreation(0, key, command, Usable(hash)), AbandonGeneration(key.knowledgeBase, StableGeneration(key))])
    ensures CreatorOf(w, 0) == Holding(Reservation(key, StableGeneration(key), w0.db.knowledgeBases[key.knowledgeBase].filterRevision))
    ensures CleanerOf(w, 0) == Waiting && w.db.claims == map[] && Deletable(w.db, TargetOf(key))
  {
    var r := Reservation(key, StableGeneration(key), w0.db.knowledgeBases[key.knowledgeBase].filterRevision);
    var g, kb := StableGeneration(key), key.knowledgeBase;
    var db := Reserve(w0.db, key, command, Usable(hash));
    NewKeyIsReserved(w0.db, key, command, Usable(hash));
    StartReserves(w0, 0, key, command, Usable(hash), r);
    hide Inv, ReserveOutcomeOf, Apply, Continue;
    assert AbandonError(db, kb, g).None?;
    var w1 := SetCreator(w0.(db := db), 0, Holding(r));
    w := w1.(db := Abandon(db, kb, g));
    AbandonApplies(w1, kb, g);
    assert Deletable(w.db, TargetOf(key));
    hide Reserve, Abandon, Deletable;
    Chain([w0, w1, w], [StartCreation(0, key, command, Usable(hash)), AbandonGeneration(kb, g)]);
  }

  lemma AbandonApplies(w: World, kb: nat, g: GenerationId)
    ensures Apply(w, AbandonGeneration(kb, g)) == w.(db := Abandon(w.db, kb, g))
  {}
}
