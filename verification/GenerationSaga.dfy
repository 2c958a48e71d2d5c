/**
 The saga as a protocol: creators, replays, abandons and cleaners interleave one atomic step at a
 time over the database and the vector store. Any process may stop anywhere, resume late, or hold a
 lease that has since expired and been taken over; a delete that was sent may land at any later
 time, any number of times.
 */
module GenerationSaga {
  import opened Prelude
  import opened Content
  import opened GenerationModel
  import opened SagaInvariant

  datatype Creator =
    | Idle
    | Holding(reservation: Reservation)                 // _reserve committed or replayed
    | Collected(reservation: Reservation)               // ensure_collection returned
    | Counted(reservation: Reservation)                 // verified, and count_points returned zero
    | Probed(reservation: Reservation)                  // the embedding probe succeeded
    | Failing(reservation: Reservation, error: Error, points: Option<nat>)
    | Finished

  datatype Cleaner =
    | Waiting
    | Claimed(ticket: ClaimTicket)
    | Cleared(ticket: ClaimTicket)      // authorised
    | Deleting(ticket: ClaimTicket)     // delete_collection sent
    | Deleted(ticket: ClaimTicket)      // delete_collection returned
    | Expiring(ticket: ClaimTicket)     // delete_collection raised

  /** `store` maps each existing collection to its number of points. */
  datatype World = World(
    db: Database,
    store: map<Collection, nat>,
    deletesSent: set<Collection>,
    creators: map<nat, Creator>,
    cleaners: map<nat, Cleaner>)

  datatype Step =
    | StartCreation(p: nat, key: CreationKey, command: Command, check: ConfigurationCheck)
    | EnsureCollection(p: nat, answered: bool)
    | RejectCollection(p: nat)
    | CountPoints(p: nat)
    | Probe(p: nat, refused: Option<Error>)
    | RecordFailure(p: nat)
    | ActivateGeneration(p: nat, now: nat)
    | StopCreator(p: nat)
    | AbandonGeneration(kb: nat, g: GenerationId)
    | ClaimCleanup(q: nat, c: Collection, owner: nat, now: nat, duration: nat)
    | AuthorizeCleanup(q: nat, now: nat)
    | SendDelete(q: nat)
    | DeleteLands(c: Collection)
    | DeleteReturns(q: nat)
    | DeleteRaises(q: nat)
    | CompleteCleanup(q: nat)
    | ExpireCleanup(q: nat, now: nat)
    | StopCleaner(q: nat)
    | AddKnowledgeBase(kb: nat)
    | ChangeElsewhere(kb: nat, status: KnowledgeBaseStatus, schemaChanged: bool, content: Content, n: nat)
    | WritePoints(c: Collection, points: nat)

  function CreatorOf(w: World, p: nat): Creator { if p in w.creators then w.creators[p] else Idle }
  function CleanerOf(w: World, q: nat): Cleaner { if q in w.cleaners then w.cleaners[q] else Waiting }

  function SetCreator(w: World, p: nat, s: Creator): World { w.(creators := w.creators[p := s]) }
  function SetCleaner(w: World, q: nat, s: Cleaner): World { w.(cleaners := w.cleaners[q := s]) }

  /** One step; a step that is not enabled changes nothing. */
  function Apply(w: World, step: Step): World {
    match step
    case StartCreation(p, key, command, check) =>
      if CreatorOf(w, p) != Idle then w
      else
        var outcome := ReserveOutcomeOf(w.db, key, command, check);
        SetCreator(w.(db := Reserve(w.db, key, command, check)), p,
                   if outcome.Reserved? then Holding(outcome.reservation) else Finished)
    case EnsureCollection(p, answered) =>
      if !CreatorOf(w, p).Holding? then w
      else
        var r := CreatorOf(w, p).reservation;
        SetCreator(w.(store := if r.Target() in w.store then w.store else w.store[r.Target() := 0]), p,
                   if answered then Collected(r) else Finished)
    case RejectCollection(p) =>
      if !(CreatorOf(w, p).Holding? || CreatorOf(w, p).Collected?) then w
      else SetCreator(w, p, Failing(CreatorOf(w, p).reservation, CollectionMismatch, None))
    case CountPoints(p) =>
      if !CreatorOf(w, p).Collected? then w
      else
        var r := CreatorOf(w, p).reservation;
        SetCreator(w, p,
                   if r.Target() !in w.store then Failing(r, CollectionMismatch, None)
                   else if w.store[r.Target()] != 0 then Failing(r, CollectionNotEmpty, Some(w.store[r.Target()]))
                   else Counted(r))
    case Probe(p, refused) =>
      if !CreatorOf(w, p).Counted? then w
      else
        var r := CreatorOf(w, p).reservation;
        SetCreator(w, p, if refused.Some? then Failing(r, refused.value, None) else Probed(r))
    case RecordFailure(p) =>
      if !CreatorOf(w, p).Failing? then w
      else
        var s := CreatorOf(w, p);
        SetCreator(w.(db := MarkFailed(w.db, s.reservation, s.error, s.points)), p, Finished)
    case ActivateGeneration(p, now) =>
      if !CreatorOf(w, p).Probed? then w
      else SetCreator(w.(db := Activate(w.db, CreatorOf(w, p).reservation, 0, now)), p, Finished)
    case StopCreator(p) => SetCreator(w, p, Finished)
    case AbandonGeneration(kb, g) => w.(db := Abandon(w.db, kb, g))
    case ClaimCleanup(q, c, owner, now, duration) =>
      if CleanerOf(w, q) != Waiting then w
      else
        var ticket := ClaimResult(w.db, c, owner, now);
        SetCleaner(w.(db := Claim(w.db, c, owner, now, duration)), q,
                   if ticket.Some? then Claimed(ticket.value) else Waiting)
    case AuthorizeCleanup(q, now) =>
      if !CleanerOf(w, q).Claimed? then w
      else
        var t := CleanerOf(w, q).ticket;
        SetCleaner(w.(db := Authorize(w.db, t, now)), q, if Authorized(w.db, t, now) then Cleared(t) else Waiting)
    case SendDelete(q) =>
      if !CleanerOf(w, q).Cleared? then w
      else
        var t := CleanerOf(w, q).ticket;
        SetCleaner(w.(deletesSent := w.deletesSent + {t.collection}), q, Deleting(t))
    case DeleteLands(c) => if c in w.deletesSent then w.(store := w.store - {c}) else w
    case DeleteReturns(q) =>
      if CleanerOf(w, q).Deleting? then SetCleaner(w, q, Deleted(CleanerOf(w, q).ticket)) else w
    case DeleteRaises(q) =>
      if CleanerOf(w, q).Deleting? then SetCleaner(w, q, Expiring(CleanerOf(w, q).ticket)) else w
    case CompleteCleanup(q) =>
      if !CleanerOf(w, q).Deleted? then w
      else SetCleaner(w.(db := Complete(w.db, CleanerOf(w, q).ticket)), q, Waiting)
    case ExpireCleanup(q, now) =>
      if !CleanerOf(w, q).Expiring? then w
      else SetCleaner(w.(db := Expire(w.db, CleanerOf(w, q).ticket, now)), q, Waiting)
    case StopCleaner(q) => SetCleaner(w, q, Waiting)
    case AddKnowledgeBase(kb) => w.(db := CreateKnowledgeBase(w.db, kb))
    case ChangeElsewhere(kb, status, schemaChanged, content, n) =>
      w.(db := ChangeKnowledgeBase(w.db, kb, status, schemaChanged, content, n))
    case WritePoints(c, points) => if c in w.store then w.(store := w.store[c := points]) else w
  }

  /** The world after a whole run, from an empty database and an empty store. */
  function After(content: Content, run: seq<Step>): World {
    if run == [] then World(EmptyDatabase(content), map[], {}, map[], map[])
    else Apply(After(content, run[..|run|-1]), run[|run|-1])
  }

  // ---- the protocol invariant -------------------------------------------------------------------

  predicate HoldsReservation(s: Creator) {
    s.Holding? || s.Collected? || s.Counted? || s.Probed? || s.Failing?
  }

  predicate ReservationKnown(db: Database, s: Creator) {
    HoldsReservation(s) ==>
      && s.reservation.key in db.requests && s.reservation.generation == StableGeneration(s.reservation.key)
      && s.reservation.generation in db.generations
      && s.reservation.filterRevision == db.generations[s.reservation.generation].filterRevision
  }

  /** A creator that saw its collection still has it for as long as its generation is building. */
  predicate SeenCollectionStays(w: World, s: Creator) {
    (s.Collected? || s.Counted? || s.Probed?) ==>
      (StatusOf(w.db, s.reservation.Target()) == Some(Building) ==> s.reservation.Target() in w.store)
  }

  predicate TicketKnown(db: Database, s: Cleaner) {
    !s.Waiting? ==>
      && s.ticket.collection in db.claims
      && s.ticket.epoch <= db.claims[s.ticket.collection].epoch
      && (s.ticket.epoch == db.claims[s.ticket.collection].epoch ==> s.ticket.owner == db.claims[s.ticket.collection].owner)
  }

  predicate DifferentTickets(s: Cleaner, t: Cleaner) {
    !s.Waiting? && !t.Waiting? && s.ticket.collection == t.ticket.collection ==> s.ticket.epoch != t.ticket.epoch
  }

  ghost predicate CreatorsOk(w: World) {
    && (forall p | p in w.creators :: ReservationKnown(w.db, w.creators[p]))
    && (forall p | p in w.creators :: SeenCollectionStays(w, w.creators[p]))
  }

  ghost predicate CleanersOk(w: World) {
    && (forall c | c in w.deletesSent :: c in w.db.claims)
    && (forall q | q in w.cleaners :: TicketKnown(w.db, w.cleaners[q]))
    && (forall q, s | q in w.cleaners && s in w.cleaners && q != s :: DifferentTickets(w.cleaners[q], w.cleaners[s]))
  }

  ghost predicate ServingStored(w: World) {
    forall g | g in w.db.generations && ServingRow(w.db.generations[g]) ::
      Collection(w.db.generations[g].knowledgeBase, g) in w.store
  }

  ghost predicate WorldInv(w: World) {
    Inv(w.db) && CreatorsOk(w) && CleanersOk(w) && ServingStored(w)
  }

  // ---- what every transaction leaves behind -------------------------------------------------------

  function Rank(s: GenerationStatus): nat {
    match s case Building => 0 case Active => 1 case Retiring => 2 case Failed => 3
  }

  predicate GenerationAdvances(before: Generation, after: Generation) {
    && before.knowledgeBase == after.knowledgeBase && Rank(before.status) <= Rank(after.status)
    && before.profile == after.profile && before.embeddingHash == after.embeddingHash && before.filterRevision == after.filterRevision
  }

  predicate ClaimAdvances(before: CleanupClaim, after: CleanupClaim) {
    && before.epoch <= after.epoch
    && (before.epoch == after.epoch ==> before.owner == after.owner)
    && (before.completed ==> after == before)
  }

  predicate RequestAdvances(before: CreationRequest, after: CreationRequest) {
    && before.fingerprint == after.fingerprint
    && before.generation == after.generation
    && (before.state.RequestFailed? ==> after.state.RequestFailed?)
    && (after.state.RequestBuilding? ==> before.state.RequestBuilding?)
  }

  predicate BaseAdvances(before: KnowledgeBase, after: KnowledgeBase) {
    && (before.active.Some? ==> after.active.Some?)
    && before.mutationRevision <= after.mutationRevision
    && before.filterRevision <= after.filterRevision
  }

  /** Rows are never lost; statuses, epochs and revisions only advance; a new claim is on an orphan. */
  ghost predicate Forward(a: Database, b: Database) {
    && (forall kb | kb in a.knowledgeBases :: kb in b.knowledgeBases && BaseAdvances(a.knowledgeBases[kb], b.knowledgeBases[kb]))
    && (forall g | g in a.generations :: g in b.generations && GenerationAdvances(a.generations[g], b.generations[g]))
    && (forall key | key in a.requests :: key in b.requests && RequestAdvances(a.requests[key], b.requests[key]))
    && (forall c | c in a.claims :: c in b.claims && ClaimAdvances(a.claims[c], b.claims[c]))
    && a.mutations <= b.mutations
    && a.jobs <= b.jobs
  }

  lemma ForwardTransitive(a: Database, b: Database, c: Database)
    requires Forward(a, b) && Forward(b, c)
    ensures Forward(a, c)
  {
    forall kb | kb in a.knowledgeBases
      ensures kb in c.knowledgeBases && BaseAdvances(a.knowledgeBases[kb], c.knowledgeBases[kb])
    {
      assert BaseAdvances(a.knowledgeBases[kb], b.knowledgeBases[kb]);
    }
    forall g | g in a.generations
      ensures g in c.generations && GenerationAdvances(a.generations[g], c.generations[g])
    {
      assert GenerationAdvances(a.generations[g], b.generations[g]);
    }
    forall key | key in a.requests ensures key in c.requests && RequestAdvances(a.requests[key], c.requests[key]) {
      assert RequestAdvances(a.requests[key], b.requests[key]);
    }
    forall k | k in a.claims ensures k in c.claims && ClaimAdvances(a.claims[k], c.claims[k]) {
      assert ClaimAdvances(a.claims[k], b.claims[k]);
    }
  }

  predicate ServingRow(g: Generation) { g.status == Active || g.status == Retiring }

  /** Nothing starts serving. */
  ghost predicate NoneStarts(a: Database, b: Database) {
    forall g | g in b.generations && ServingRow(b.generations[g]) :: g in a.generations && ServingRow(a.generations[g])
  }

  lemma FailCreationForward(db: Database, kb: nat, key: CreationKey, g: GenerationId, error: Error)
    requires kb in db.knowledgeBases && key in db.requests && g in db.generations
    ensures Forward(db, FailCreation(db, kb, key, g, error))
    ensures NoneStarts(db, FailCreation(db, kb, key, g, error))
  {}

  lemma ReserveForward(db: Database, key: CreationKey, command: Command, check: ConfigurationCheck)
    ensures Forward(db, Reserve(db, key, command, check))
    ensures NoneStarts(db, Reserve(db, key, command, check))
  {
    var outcome := ReserveOutcomeOf(db, key, command, check);
    if outcome.Terminal? {
      FailCreationForward(db, key.knowledgeBase, key, db.requests[key].generation, outcome.error);
    }
  }

  lemma MarkFailedForward(db: Database, r: Reservation, error: Error, points: Option<nat>)
    ensures Forward(db, MarkFailed(db, r, error, points))
    ensures NoneStarts(db, MarkFailed(db, r, error, points))
  {
    if MarkFailedApplies(db, r) {
      var failed := FailCreation(db, r.key.knowledgeBase, r.key, r.generation, error);
      FailCreationForward(db, r.key.knowledgeBase, r.key, r.generation, error);
      if points.Some? {
        var after := MarkFailed(db, r, error, points);
        forall g | g in db.generations
          ensures g in after.generations && GenerationAdvances(db.generations[g], after.generations[g])
        {
          assert GenerationAdvances(db.generations[g], failed.generations[g]);
        }
      }
    }
  }

  lemma AbandonForward(db: Database, kb: nat, g: GenerationId)
    ensures Forward(db, Abandon(db, kb, g))
    ensures NoneStarts(db, Abandon(db, kb, g))
  {}

  lemma ClaimForward(db: Database, c: Collection, owner: nat, now: nat, duration: nat)
    ensures Forward(db, Claim(db, c, owner, now, duration))
    ensures NoneStarts(db, Claim(db, c, owner, now, duration))
  {}

  lemma CompleteForward(db: Database, t: ClaimTicket)
    ensures Forward(db, Complete(db, t)) && NoneStarts(db, Complete(db, t))
  {}

  lemma ExpireForward(db: Database, t: ClaimTicket, now: nat)
    ensures Forward(db, Expire(db, t, now)) && NoneStarts(db, Expire(db, t, now))
  {}

  lemma CreateForward(db: Database, kb: nat)
    ensures Forward(db, CreateKnowledgeBase(db, kb)) && NoneStarts(db, CreateKnowledgeBase(db, kb))
  {}

  lemma ChangeForward(db: Database, kb: nat, status: KnowledgeBaseStatus, schemaChanged: bool, content: Content, n: nat)
    ensures Forward(db, ChangeKnowledgeBase(db, kb, status, schemaChanged, content, n))
    ensures NoneStarts(db, ChangeKnowledgeBase(db, kb, status, schemaChanged, content, n))
  {}

  lemma PromoteForward(db: Database, r: Reservation, after: Database)
    requires RowsPresent(db, r) && PromotedTo(db, r, after)
    requires db.generations[r.generation].status == Building
    requires !db.requests[r.key].state.RequestFailed?
    ensures Forward(db, after)
    ensures forall g | g in after.generations && ServingRow(after.generations[g]) && g != r.generation ::
              g in db.generations && ServingRow(db.generations[g])
  {
    forall g | g in db.generations
      ensures g in after.generations && GenerationAdvances(db.generations[g], after.generations[g])
      ensures g != r.generation && ServingRow(after.generations[g]) ==> ServingRow(db.generations[g])
    {
      assert PromotedRow(db, r, g, after.generations[g]);
    }
  }

  // ---- carrying the protocol invariant over a step -------------------------------------------------

  /** What every step satisfies on the database and the store, whoever takes it. */
  ghost predicate Moves(w: World, after: World) {
    && WorldInv(w)
    && Inv(after.db)
    && Forward(w.db, after.db)
    && (forall c | c in w.store && !Deletable(after.db, c) :: c in after.store)
  }

  lemma CreatorCarries(w: World, after: World, s: Creator)
    requires Moves(w, after)
    requires ReservationKnown(w.db, s) && SeenCollectionStays(w, s)
    ensures ReservationKnown(after.db, s) && SeenCollectionStays(after, s)
  {
    hide Inv, CreatorsOk, CleanersOk, ServingStored, Forward, Deletable, ReservationKnown, SeenCollectionStays;
    KnownCarries(w.db, after.db, s);
    if HoldsReservation(s) {
      KnownHasRow(w.db, s);
      SeenCarries(w, after, s);
    } else {
      SeesNothing(after, s);
    }
  }

  lemma SeesNothing(w: World, s: Creator)
    requires !HoldsReservation(s)
    ensures SeenCollectionStays(w, s)
  {}

  lemma KnownCarries(a: Database, b: Database, s: Creator)
    requires Forward(a, b) && ReservationKnown(a, s)
    ensures ReservationKnown(b, s)
  {
    if HoldsReservation(s) {
      assert GenerationAdvances(a.generations[s.reservation.generation], b.generations[s.reservation.generation]);
    }
  }

  lemma KnownHasRow(db: Database, s: Creator)
    requires Inv(db) && ReservationKnown(db, s) && HoldsReservation(s)
    ensures s.reservation.generation in db.generations
    ensures db.generations[s.reservation.generation].knowledgeBase == s.reservation.key.knowledgeBase
  {
    RequestHasRow(db, s.reservation.key);
  }

  lemma SeenCarries(w: World, after: World, s: Creator)
    requires Forward(w.db, after.db) && SeenCollectionStays(w, s) && HoldsReservation(s)
    requires s.reservation.generation in w.db.generations
    requires w.db.generations[s.reservation.generation].knowledgeBase == s.reservation.key.knowledgeBase
    requires forall c | c in w.store && !Deletable(after.db, c) :: c in after.store
    ensures SeenCollectionStays(after, s)
  {
    assert GenerationAdvances(w.db.generations[s.reservation.generation], after.db.generations[s.reservation.generation]);
  }

  lemma RequestHasRow(db: Database, key: CreationKey)
    requires Inv(db) && key in db.requests
    ensures RequestExact(db.generations, key, db.requests[key])
  {}

  lemma CreatorsCarry(w: World, after: World, p: nat, s: Creator)
    requires Moves(w, after)
    requires after.creators == w.creators || after.creators == w.creators[p := s]
    requires after.creators == w.creators[p := s] ==> ReservationKnown(after.db, s) && SeenCollectionStays(after, s)
    ensures CreatorsOk(after)
  {
    forall x | x in after.creators
      ensures ReservationKnown(after.db, after.creators[x]) && SeenCollectionStays(after, after.creators[x])
    {
      if x in w.creators && w.creators[x] == after.creators[x] {
        CreatorCarries(w, after, w.creators[x]);
      }
    }
  }

  lemma CleanersCarry(w: World, after: World, q: nat, s: Cleaner)
    requires Moves(w, after)
    requires after.cleaners == w.cleaners || after.cleaners == w.cleaners[q := s]
    requires after.cleaners == w.cleaners[q := s] ==> TicketKnown(after.db, s)
    requires after.cleaners == w.cleaners[q := s] ==> forall x | x in w.cleaners && x != q :: DifferentTickets(s, w.cleaners[x])
    requires forall c | c in after.deletesSent :: c in after.db.claims
    ensures CleanersOk(after)
  {
    forall x | x in after.cleaners ensures TicketKnown(after.db, after.cleaners[x]) {
      if x in w.cleaners && w.cleaners[x] == after.cleaners[x] {
        TicketCarries(w, after, x);
      }
    }
    forall x, y | x in after.cleaners && y in after.cleaners && x != y
      ensures DifferentTickets(after.cleaners[x], after.cleaners[y])
    {
      assert x in w.cleaners && y in w.cleaners ==> DifferentTickets(w.cleaners[x], w.cleaners[y]);
    }
  }

  lemma TicketCarries(w: World, after: World, x: nat)
    requires Moves(w, after) && x in w.cleaners
    ensures TicketKnown(after.db, w.cleaners[x])
  {
    var s := w.cleaners[x];
    assert TicketKnown(w.db, s);
    if !s.Waiting? {
      assert ClaimAdvances(w.db.claims[s.ticket.collection], after.db.claims[s.ticket.collection]);
    }
  }

  lemma SentStay(w: World, after: World)
    requires Moves(w, after) && after.deletesSent == w.deletesSent
    ensures forall c | c in after.deletesSent :: c in after.db.claims
  {
    forall c | c in after.deletesSent ensures c in after.db.claims {
      assert c in w.db.claims;
    }
  }

  lemma ServingCarries(w: World, after: World)
    requires Moves(w, after) && NoneStarts(w.db, after.db)
    ensures ServingStored(after)
  {
    forall g | g in after.db.generations && ServingRow(after.db.generations[g])
      ensures Collection(after.db.generations[g].knowledgeBase, g) in after.store
    {
      ServingCarriesOne(w, after, g);
    }
  }

  lemma ServingCarriesOne(w: World, after: World, g: GenerationId)
    requires ServingStored(w) && Forward(w.db, after.db)
    requires forall c | c in w.store && !Deletable(after.db, c) :: c in after.store
    requires g in w.db.generations && ServingRow(w.db.generations[g])
    requires g in after.db.generations && ServingRow(after.db.generations[g])
    ensures Collection(after.db.generations[g].knowledgeBase, g) in after.store
  {
    assert GenerationAdvances(w.db.generations[g], after.db.generations[g]);
    assert Collection(w.db.generations[g].knowledgeBase, g) in w.store;
  }

  /** A step of creator p, whose new local state is s, that makes nothing serve. */
  lemma CreatorMoves(w: World, after: World, p: nat, s: Creator)
    requires Moves(w, after) && NoneStarts(w.db, after.db)
    requires after.creators == w.creators[p := s] && after.cleaners == w.cleaners && after.deletesSent == w.deletesSent
    requires ReservationKnown(after.db, s) && SeenCollectionStays(after, s)
    ensures WorldInv(after)
  {
    CreatorsCarry(w, after, p, s);
    SentStay(w, after);
    CleanersCarry(w, after, 0, Waiting);
    ServingCarries(w, after);
  }

  /** A step of cleaner q, whose new local state is s. */
  lemma CleanerMoves(w: World, after: World, q: nat, s: Cleaner)
    requires Moves(w, after) && NoneStarts(w.db, after.db)
    requires after.cleaners == w.cleaners[q := s] && after.creators == w.creators
    requires TicketKnown(after.db, s)
    requires forall x | x in w.cleaners && x != q :: DifferentTickets(s, w.cleaners[x])
    requires forall c | c in after.deletesSent :: c in after.db.claims
    ensures WorldInv(after)
  {
    CreatorsCarry(w, after, 0, Idle);
    CleanersCarry(w, after, q, s);
    ServingCarries(w, after);
  }

  /** A step that moves no process. */
  lemma WorldMoves(w: World, after: World)
    requires Moves(w, after) && NoneStarts(w.db, after.db)
    requires after.cleaners == w.cleaners && after.creators == w.creators && after.deletesSent == w.deletesSent
    ensures WorldInv(after)
  {
    CreatorsCarry(w, after, 0, Idle);
    SentStay(w, after);
    CleanersCarry(w, after, 0, Waiting);
    ServingCarries(w, after);
  }

  /** A cleaner moving on with the ticket it holds. */
  lemma SameTicket(w: World, q: nat, s: Cleaner)
    requires WorldInv(w)
    requires !CleanerOf(w, q).Waiting?
    requires s.Waiting? || s.ticket == CleanerOf(w, q).ticket
    ensures TicketKnown(w.db, s)
    ensures forall x | x in w.cleaners && x != q :: DifferentTickets(s, w.cleaners[x])
  {
    assert TicketKnown(w.db, w.cleaners[q]);
    forall x | x in w.cleaners && x != q ensures DifferentTickets(s, w.cleaners[x]) {
      assert DifferentTickets(w.cleaners[q], w.cleaners[x]);
    }
  }

  // ---- each step -----------------------------------------------------------------------------------

  /** Forward holds, and the creator's own state is fine: the conclusion every step lemma shares. */
  ghost predicate Kept(w: World, step: Step) {
    WorldInv(Apply(w, step)) && Forward(w.db, Apply(w, step).db)
  }

  /** A transaction of creator p that makes nothing serve and leaves p without a collection it has seen. */
  lemma CreatorTransaction(w: World, db: Database, p: nat, s: Creator)
    requires WorldInv(w) && Inv(db) && Forward(w.db, db) && NoneStarts(w.db, db)
    requires s == Finished || (s.Holding? && ReservationKnown(db, s))
    ensures WorldInv(SetCreator(w.(db := db), p, s))
  {
    CreatorMoves(w, SetCreator(w.(db := db), p, s), p, s);
  }

  lemma StartCreationKeeps(w: World, p: nat, key: CreationKey, command: Command, check: ConfigurationCheck)
    requires WorldInv(w)
    ensures Kept(w, StartCreation(p, key, command, check))
  {
    hide Inv;
    if CreatorOf(w, p) == Idle {
      var outcome := ReserveOutcomeOf(w.db, key, command, check);
      var s := if outcome.Reserved? then Holding(outcome.reservation) else Finished;
      var db := Reserve(w.db, key, command, check);
      ReserveKeeps(w.db, key, command, check);
      ReserveForward(w.db, key, command, check);
      if outcome.Reserved? {
        ReservedIsKnown(w.db, key, command, check);
      }
      CreatorTransaction(w, db, p, s);
      assert Apply(w, StartCreation(p, key, command, check)) == SetCreator(w.(db := db), p, s);
    }
  }

  /** Every run of one (actor, knowledge base, key) is handed the one generation identity derived from it. */
  lemma ReservedIsKnown(db: Database, key: CreationKey, command: Command, check: ConfigurationCheck)
    requires Inv(db)
    requires ReserveOutcomeOf(db, key, command, check).Reserved?
    ensures var r := ReserveOutcomeOf(db, key, command, check).reservation;
            var after := Reserve(db, key, command, check);
            && r.key == key && r.generation == StableGeneration(key) && key in after.requests
            && r.generation in after.generations && r.filterRevision == after.generations[r.generation].filterRevision
  {
    if key in db.requests {
      assert RequestExact(db.generations, key, db.requests[key]);
    }
  }

  lemma CollectKeeps(w: World, p: nat, answered: bool)
    requires WorldInv(w)
    ensures Kept(w, EnsureCollection(p, answered))
  {
    hide Inv;
    if CreatorOf(w, p).Holding? {
      assert ReservationKnown(w.db, w.creators[p]);
      CreatorMoves(w, Apply(w, EnsureCollection(p, answered)), p,
                   if answered then Collected(CreatorOf(w, p).reservation) else Finished);
    }
  }

  lemma LocalCreatorKeeps(w: World, p: nat, s: Creator)
    requires WorldInv(w)
    requires ReservationKnown(w.db, s) && SeenCollectionStays(w, s)
    ensures WorldInv(SetCreator(w, p, s)) && Forward(w.db, SetCreator(w, p, s).db)
  {
    hide Inv, Forward, NoneStarts;
    NothingMoves(w.db);
    CreatorMoves(w, SetCreator(w, p, s), p, s);
  }

  lemma RejectKeeps(w: World, p: nat)
    requires WorldInv(w)
    ensures Kept(w, RejectCollection(p)) && Kept(w, StopCreator(p))
  {
    hide Inv, Forward;
    if CreatorOf(w, p).Holding? || CreatorOf(w, p).Collected? {
      var s := w.creators[p];
      assert ReservationKnown(w.db, s) && SeenCollectionStays(w, s);
      LocalCreatorKeeps(w, p, Failing(s.reservation, CollectionMismatch, None));
    }
    LocalCreatorKeeps(w, p, Finished);
    NothingMoves(w.db);
  }

  lemma CountKeeps(w: World, p: nat)
    requires WorldInv(w)
    ensures Kept(w, CountPoints(p))
  {
    hide Inv, Forward;
    NothingMoves(w.db);
    if CreatorOf(w, p).Collected? {
      assert ReservationKnown(w.db, w.creators[p]) && SeenCollectionStays(w, w.creators[p]);
      LocalCreatorKeeps(w, p, Apply(w, CountPoints(p)).creators[p]);
    }
  }

  lemma ProbeKeeps(w: World, p: nat, refused: Option<Error>)
    requires WorldInv(w)
    ensures Kept(w, Probe(p, refused))
  {
    hide Inv;
    if CreatorOf(w, p).Counted? {
      assert ReservationKnown(w.db, w.creators[p]) && SeenCollectionStays(w, w.creators[p]);
      LocalCreatorKeeps(w, p, Apply(w, Probe(p, refused)).creators[p]);
    }
  }

  lemma RecordFailureKeeps(w: World, p: nat)
    requires WorldInv(w)
    ensures Kept(w, RecordFailure(p))
  {
    if CreatorOf(w, p).Failing? {
      var s := CreatorOf(w, p);
      var db := MarkFailed(w.db, s.reservation, s.error, s.points);
      assert ReservationKnown(w.db, w.creators[p]);
      MarkFailedKeeps(w.db, s.reservation, s.error, s.points);
      MarkFailedForward(w.db, s.reservation, s.error, s.points);
      CreatorTransaction(w, db, p, Finished);
      assert Apply(w, RecordFailure(p)) == SetCreator(w.(db := db), p, Finished);
    }
  }

  lemma PromotionKeeps(w: World, p: nat, now: nat)
    requires WorldInv(w)
    requires CreatorOf(w, p).Probed?
    requires ActivateOutcomeOf(w.db, CreatorOf(w, p).reservation, 0).Activated?
    ensures var db := Activate(w.db, CreatorOf(w, p).reservation, 0, now);
            WorldInv(SetCreator(w.(db := db), p, Finished)) && Forward(w.db, db)
  {
    var r := CreatorOf(w, p).reservation;
    var db := Promote(w.db, r, now);
    assert ReservationKnown(w.db, w.creators[p]) && SeenCollectionStays(w, w.creators[p]);
    assert RequestExact(w.db.generations, r.key, w.db.requests[r.key]);
    ActivateKeeps(w.db, r, 0, now);
    PromoteDescribed(w.db, r, now);
    PromoteForward(w.db, r, db);
    PromotedServing(w, db, r);
    PromotionStored(w, db, p, r);
  }

  lemma ActivateStepKeeps(w: World, p: nat, now: nat)
    requires WorldInv(w)
    ensures Kept(w, ActivateGeneration(p, now))
  {
    hide Inv, ServingStored, CleanersOk, Promote, FailCreation;
    if CreatorOf(w, p).Probed? {
      var r := CreatorOf(w, p).reservation;
      var outcome := ActivateOutcomeOf(w.db, r, 0);
      if outcome.Activated? {
        PromotionKeeps(w, p, now);
      } else {
        assert ReservationKnown(w.db, w.creators[p]);
        ActivateKeeps(w.db, r, 0, now);
        if outcome.Conflict? {
          FailCreationForward(w.db, r.key.knowledgeBase, r.key, r.generation, outcome.error);
        }
        CreatorTransaction(w, Activate(w.db, r, 0, now), p, Finished);
      }
    }
  }

  /** The promoted generation's collection was seen by its creator, so it is there; the others were served before. */
  lemma PromotedServing(w: World, db: Database, r: Reservation)
    requires ServingStored(w)
    requires RowsPresent(w.db, r) && PromotedTo(w.db, r, db)
    requires w.db.generations[r.generation].knowledgeBase == r.key.knowledgeBase
    requires r.Target() in w.store
    ensures forall g | g in db.generations && ServingRow(db.generations[g]) :: Collection(db.generations[g].knowledgeBase, g) in w.store
  {
    forall g | g in db.generations && ServingRow(db.generations[g])
      ensures Collection(db.generations[g].knowledgeBase, g) in w.store
    {
      assert PromotedRow(w.db, r, g, db.generations[g]);
      assert g != r.generation ==> ServingRow(w.db.generations[g]);
    }
  }

  lemma PromotionStored(w: World, db: Database, p: nat, r: Reservation)
    requires WorldInv(w) && Inv(db) && Forward(w.db, db)
    requires forall g | g in db.generations && ServingRow(db.generations[g]) :: Collection(db.generations[g].knowledgeBase, g) in w.store
    ensures WorldInv(SetCreator(w.(db := db), p, Finished))
  {
    var after := SetCreator(w.(db := db), p, Finished);
    CreatorsCarry(w, after, p, Finished);
    SentStay(w, after);
    CleanersCarry(w, after, 0, Waiting);
  }

  lemma ClaimStepKeeps(w: World, q: nat, c: Collection, owner: nat, now: nat, duration: nat)
    requires WorldInv(w)
    ensures Kept(w, ClaimCleanup(q, c, owner, now, duration))
  {
    hide Inv, Claim, ClaimResult, TicketKnown, DifferentTickets;
    if CleanerOf(w, q) == Waiting {
      var ticket := ClaimResult(w.db, c, owner, now);
      var s := if ticket.Some? then Claimed(ticket.value) else Waiting;
      ClaimKeeps(w.db, c, owner, now, duration);
      ClaimForward(w.db, c, owner, now, duration);
      NewTicket(w, q, c, owner, now, duration, s);
      CleanerTransaction(w, Claim(w.db, c, owner, now, duration), q, s);
    }
  }

  /** A claim that is granted has an epoch no other cleaner holds. */
  lemma NewTicket(w: World, q: nat, c: Collection, owner: nat, now: nat, duration: nat, s: Cleaner)
    requires WorldInv(w)
    requires var ticket := ClaimResult(w.db, c, owner, now); s == if ticket.Some? then Claimed(ticket.value) else Waiting
    ensures TicketKnown(Claim(w.db, c, owner, now, duration), s)
    ensures forall x | x in w.cleaners && x != q :: DifferentTickets(s, w.cleaners[x])
  {
    hide Inv;
    forall x | x in w.cleaners && x != q ensures DifferentTickets(s, w.cleaners[x]) {
      assert TicketKnown(w.db, w.cleaners[x]);
    }
  }

  lemma AuthorizeStepKeeps(w: World, q: nat, now: nat)
    requires WorldInv(w)
    ensures Kept(w, AuthorizeCleanup(q, now))
  {
    hide Inv;
    if CleanerOf(w, q).Claimed? {
      var t := CleanerOf(w, q).ticket;
      var s := if Authorized(w.db, t, now) then Cleared(t) else Waiting;
      AuthorizeReleasesNothing(w.db, t, now);
      SameTicket(w, q, s);
      CleanerMoves(w, SetCleaner(w, q, s), q, s);
    }
  }

  lemma LocalCleanerKeeps(w: World, q: nat, s: Cleaner)
    requires WorldInv(w)
    requires s.Waiting? || (!CleanerOf(w, q).Waiting? && s.ticket == CleanerOf(w, q).ticket)
    ensures WorldInv(SetCleaner(w, q, s))
  {
    if !s.Waiting? {
      SameTicket(w, q, s);
    }
    CleanerMoves(w, SetCleaner(w, q, s), q, s);
  }

  lemma SendDeleteKeeps(w: World, q: nat)
    requires WorldInv(w)
    ensures Kept(w, SendDelete(q))
  {
    hide Inv;
    if CleanerOf(w, q).Cleared? {
      var t := w.cleaners[q].ticket;
      assert TicketKnown(w.db, w.cleaners[q]);
      SameTicket(w, q, Deleting(t));
      CleanerMoves(w, Apply(w, SendDelete(q)), q, Deleting(t));
    }
  }

  lemma DeleteStepsKeep(w: World, q: nat)
    requires WorldInv(w)
    ensures Kept(w, DeleteReturns(q)) && Kept(w, DeleteRaises(q)) && Kept(w, StopCleaner(q))
  {
    hide WorldInv, Forward, NoneStarts;
    NothingMoves(w.db);
    if CleanerOf(w, q).Deleting? {
      LocalCleanerKeeps(w, q, Deleted(w.cleaners[q].ticket));
      LocalCleanerKeeps(w, q, Expiring(w.cleaners[q].ticket));
    }
    LocalCleanerKeeps(w, q, Waiting);
  }

  lemma CompleteStepKeeps(w: World, q: nat)
    requires WorldInv(w)
    ensures Kept(w, CompleteCleanup(q))
  {
    hide Inv, Complete;
    if CleanerOf(w, q).Deleted? {
      var t := CleanerOf(w, q).ticket;
      CompleteKeeps(w.db, t);
      CompleteForward(w.db, t);
      CleanerTransaction(w, Complete(w.db, t), q, Waiting);
    }
  }

  lemma ExpireStepKeeps(w: World, q: nat, now: nat)
    requires WorldInv(w)
    ensures Kept(w, ExpireCleanup(q, now))
  {
    hide Inv, Expire;
    if CleanerOf(w, q).Expiring? {
      var t := CleanerOf(w, q).ticket;
      ExpireKeeps(w.db, t, now);
      ExpireForward(w.db, t, now);
      CleanerTransaction(w, Expire(w.db, t, now), q, Waiting);
    }
  }

  /** A transaction of cleaner q that makes nothing serve and deletes nothing. */
  lemma CleanerTransaction(w: World, db: Database, q: nat, s: Cleaner)
    requires WorldInv(w) && Inv(db) && Forward(w.db, db) && NoneStarts(w.db, db)
    requires TicketKnown(db, s) && forall x | x in w.cleaners && x != q :: DifferentTickets(s, w.cleaners[x])
    ensures WorldInv(SetCleaner(w.(db := db), q, s))
  {
    hide Inv;
    var after := SetCleaner(w.(db := db), q, s);
    SentStay(w, after);
    CleanerMoves(w, after, q, s);
  }

  lemma SentIsDeletable(w: World, c: Collection)
    requires WorldInv(w) && c in w.deletesSent
    ensures Deletable(w.db, c)
  {
    assert c in w.db.claims;
    assert Deletable(w.db, c);
  }

  lemma NothingMoves(db: Database)
    ensures Forward(db, db) && NoneStarts(db, db)
  {}

  /** A delete lands only on a collection whose generation is missing or failed. */
  lemma DeleteLandsKeeps(w: World, c: Collection)
    requires WorldInv(w)
    ensures Kept(w, DeleteLands(c))
    ensures c in w.deletesSent ==> Deletable(w.db, c)
  {
    hide Inv, Deletable, Forward, NoneStarts;
    NothingMoves(w.db);
    if c in w.deletesSent {
      SentIsDeletable(w, c);
      WorldMoves(w, w.(store := w.store - {c}));
    }
  }

  /** A transaction outside the saga that makes nothing serve. */
  lemma OtherTransaction(w: World, db: Database)
    requires WorldInv(w) && Inv(db) && Forward(w.db, db) && NoneStarts(w.db, db)
    ensures WorldInv(w.(db := db))
  {
    WorldMoves(w, w.(db := db));
  }

  lemma AbandonStepKeeps(w: World, kb: nat, g: GenerationId)
    requires WorldInv(w)
    ensures Kept(w, AbandonGeneration(kb, g))
  {
    AbandonKeeps(w.db, kb, g);
    AbandonForward(w.db, kb, g);
    OtherTransaction(w, Abandon(w.db, kb, g));
  }

  lemma ElsewhereKeeps(w: World, kb: nat, status: KnowledgeBaseStatus, schemaChanged: bool, content: Content, n: nat)
    requires WorldInv(w)
    ensures Kept(w, AddKnowledgeBase(kb))
    ensures Kept(w, ChangeElsewhere(kb, status, schemaChanged, content, n))
  {
    hide Inv, CreateKnowledgeBase, ChangeKnowledgeBase, Forward, NoneStarts;
    CreateKnowledgeBaseKeeps(w.db, kb);
    CreateForward(w.db, kb);
    OtherTransaction(w, CreateKnowledgeBase(w.db, kb));
    ChangeKnowledgeBaseKeeps(w.db, kb, status, schemaChanged, content, n);
    ChangeForward(w.db, kb, status, schemaChanged, content, n);
    OtherTransaction(w, ChangeKnowledgeBase(w.db, kb, status, schemaChanged, content, n));
  }

  lemma WritePointsKeeps(w: World, c: Collection, points: nat)
    requires WorldInv(w)
    ensures Kept(w, WritePoints(c, points))
  {
    hide Inv;
    WorldMoves(w, Apply(w, WritePoints(c, points)));
  }

  lemma StepKeeps(w: World, step: Step)
    requires WorldInv(w)
    ensures Kept(w, step)
  {
    match step
    case StartCreation(p, key, command, check) => StartCreationKeeps(w, p, key, command, check);
    case EnsureCollection(p, answered) => CollectKeeps(w, p, answered);
    case RejectCollection(p) => RejectKeeps(w, p);
    case CountPoints(p) => CountKeeps(w, p);
    case Probe(p, refused) => ProbeKeeps(w, p, refused);
    case RecordFailure(p) => RecordFailureKeeps(w, p);
    case ActivateGeneration(p, now) => ActivateStepKeeps(w, p, now);
    case StopCreator(p) => RejectKeeps(w, p);
    case AbandonGeneration(kb, g) => AbandonStepKeeps(w, kb, g);
    case ClaimCleanup(q, c, owner, now, duration) => ClaimStepKeeps(w, q, c, owner, now, duration);
    case AuthorizeCleanup(q, now) => AuthorizeStepKeeps(w, q, now);
    case SendDelete(q) => SendDeleteKeeps(w, q);
    case DeleteLands(c) => DeleteLandsKeeps(w, c);
    case DeleteReturns(q) => DeleteStepsKeep(w, q);
    case DeleteRaises(q) => DeleteStepsKeep(w, q);
    case CompleteCleanup(q) => CompleteStepKeeps(w, q);
    case ExpireCleanup(q, now) => ExpireStepKeeps(w, q, now);
    case StopCleaner(q) => DeleteStepsKeep(w, q);
    case AddKnowledgeBase(kb) => ElsewhereKeeps(w, kb, KbActive, false, w.db.content, 0);
    case ChangeElsewhere(kb, status, schemaChanged, content, n) => ElsewhereKeeps(w, kb, status, schemaChanged, content, n);
    case WritePoints(c, points) => WritePointsKeeps(w, c, points);
  }

  lemma {:induction false} RunKeeps(content: Content, run: seq<Step>)
    ensures WorldInv(After(content, run))
  {
    if run == [] {
      EmptyDatabaseInv(content);
    } else {
      RunKeeps(content, run[..|run|-1]);
      StepKeeps(After(content, run[..|run|-1]), run[|run|-1]);
    }
  }

  lemma {:induction false} RunForward(content: Content, run: seq<Step>, more: seq<Step>)
    ensures Forward(After(content, run).db, After(content, run + more).db)
  {
    if more == [] {
      assert run + more == run;
      NothingMoves(After(content, run).db);
    } else {
      hide WorldInv, Forward, Apply;
      var prefix := run + more[..|more|-1];
      assert (run + more)[..|run + more|-1] == prefix;
      RunForward(content, run, more[..|more|-1]);
      RunKeeps(content, prefix);
      StepKeeps(After(content, prefix), more[|more|-1]);
      ForwardTransitive(After(content, run).db, After(content, prefix).db, After(content, run + more).db);
    }
  }

}
