/**
 The cleanup lease over time. Every call names the moment at which it looks at the clock, and these moments
 come in any order: a claim that gives a lease until some moment is honoured by every claim that is made
 before it, and clears a delete only before it.
 */
module GenerationLeases {
  import opened Prelude
  import opened Content
  import opened GenerationModel
  import opened SagaInvariant
  import opened GenerationSaga
  import opened GenerationTheorems

  /** The claim row is still the one this ticket was given, until then. */
  predicate LeaseIn(db: Database, t: ClaimTicket, until: nat) {
    && t.collection in db.claims
    && db.claims[t.collection].owner == t.owner && db.claims[t.collection].epoch == t.epoch
    && db.claims[t.collection].expires == until
  }

  /** The step leaves this lease alone: no claim of the collection at its end or later, and its holder does not end it. */
  predicate LeavesLease(w: World, step: Step, t: ClaimTicket, until: nat) {
    match step
    case ClaimCleanup(_, c, _, now, _) => c == t.collection ==> now < until
    case ExpireCleanup(q, _) => CleanerOf(w, q) != Expiring(t)
    case _ => true
  }

  ghost predicate RunLeavesLease(content: Content, run: seq<Step>, more: seq<Step>, t: ClaimTicket, until: nat) {
    forall i | 0 <= i < |more| :: LeavesLease(After(content, run + more[..i]), more[i], t, until)
  }

  // ---- the steps that touch a claim ------------------------------------------------------------------------------

  predicate IsCleaning(step: Step) {
    step.ClaimCleanup? || step.AuthorizeCleanup? || step.CompleteCleanup? || step.ExpireCleanup?
  }

  lemma OthersTouchNoClaim(w: World, step: Step)
    requires !IsCleaning(step)
    ensures Apply(w, step).db.claims == w.db.claims
  {
    hide Reserve, ReserveOutcomeOf, MarkFailed, Activate, Abandon, ChangeKnowledgeBase, CreateKnowledgeBase;
    match step
    case StartCreation(_, key, command, check) => ReservingTouchesNoClaim(w.db, key, command, check);
    case RecordFailure(p) =>
      if CreatorOf(w, p).Failing? {
        FailingTouchesNoClaim(w.db, CreatorOf(w, p).reservation, CreatorOf(w, p).error, CreatorOf(w, p).points);
      }
    case ActivateGeneration(p, now) =>
      if CreatorOf(w, p).Probed? { ActivatingTouchesNoClaim(w.db, CreatorOf(w, p).reservation, now); }
    case AbandonGeneration(kb, g) => AbandoningTouchesNoClaim(w.db, kb, g);
    case AddKnowledgeBase(kb) => AddingTouchesNoClaim(w.db, kb);
    case ChangeElsewhere(kb, status, schemaChanged, content, n) => ChangingTouchesNoClaim(w.db, kb, status, schemaChanged, content, n);
    case _ =>
  }

  lemma ReservingTouchesNoClaim(db: Database, key: CreationKey, command: Command, check: ConfigurationCheck)
    ensures Reserve(db, key, command, check).claims == db.claims
  {
    hide ReserveOutcomeOf;
  }

  lemma FailingTouchesNoClaim(db: Database, r: Reservation, error: Error, points: Option<nat>)
    ensures MarkFailed(db, r, error, points).claims == db.claims
  {}

  lemma ActivatingTouchesNoClaim(db: Database, r: Reservation, now: nat)
    ensures Activate(db, r, 0, now).claims == db.claims
  {
    hide Enrolment, BackfillJob, ActivationMutationOf, PromotedGeneration;
  }

  lemma AbandoningTouchesNoClaim(db: Database, kb: nat, g: GenerationId)
    ensures Abandon(db, kb, g).claims == db.claims
  {}

  lemma AddingTouchesNoClaim(db: Database, kb: nat)
    ensures CreateKnowledgeBase(db, kb).claims == db.claims
  {}

  lemma ChangingTouchesNoClaim(db: Database, kb: nat, status: KnowledgeBaseStatus, schemaChanged: bool, content: Content, n: nat)
    ensures ChangeKnowledgeBase(db, kb, status, schemaChanged, content, n).claims == db.claims
  {}

  lemma AuthorizingTouchesNoClaim(w: World, q: nat, now: nat)
    requires Inv(w.db)
    ensures Apply(w, AuthorizeCleanup(q, now)).db.claims == w.db.claims
  {
    hide Inv, Authorize, Authorized;
    if CleanerOf(w, q).Claimed? {
      AuthorizeReleasesNothing(w.db, CleanerOf(w, q).ticket, now);
    }
  }

  lemma ClaimKeepsLease(w: World, q: nat, c: Collection, owner: nat, now: nat, duration: nat, t: ClaimTicket, until: nat)
    requires LeaseIn(w.db, t, until) && (c == t.collection ==> now < until)
    ensures LeaseIn(Apply(w, ClaimCleanup(q, c, owner, now, duration)).db, t, until)
  {
    hide Deletable;
  }

  lemma CompletionKeepsLease(w: World, q: nat, t: ClaimTicket, until: nat)
    requires LeaseIn(w.db, t, until)
    ensures LeaseIn(Apply(w, CompleteCleanup(q)).db, t, until)
  {}

  lemma ExpiryKeepsLease(w: World, q: nat, now: nat, t: ClaimTicket, until: nat)
    requires LeaseIn(w.db, t, until) && CleanerOf(w, q) != Expiring(t)
    ensures LeaseIn(Apply(w, ExpireCleanup(q, now)).db, t, until)
  {}

  lemma StepKeepsLease(w: World, step: Step, t: ClaimTicket, until: nat)
    requires Inv(w.db) && LeaseIn(w.db, t, until) && LeavesLease(w, step, t, until)
    ensures LeaseIn(Apply(w, step).db, t, until)
  {
    hide Inv, Apply;
    match step
    case AuthorizeCleanup(q, now) => AuthorizingTouchesNoClaim(w, q, now);
    case ClaimCleanup(q, c, owner, now, duration) => ClaimKeepsLease(w, q, c, owner, now, duration, t, until);
    case CompleteCleanup(q) => CompletionKeepsLease(w, q, t, until);
    case ExpireCleanup(q, now) => ExpiryKeepsLease(w, q, now, t, until);
    case _ => OthersTouchNoClaim(w, step);
  }

  lemma FrontLeavesLease(content: Content, run: seq<Step>, more: seq<Step>, t: ClaimTicket, until: nat)
    requires more != [] && RunLeavesLease(content, run, more, t, until)
    ensures var front := more[..|more|-1];
            RunLeavesLease(content, run, front, t, until) && LeavesLease(After(content, run + front), more[|more|-1], t, until)
  {
    hide After, LeavesLease;
    var front := more[..|more|-1];
    forall i | 0 <= i < |front| ensures LeavesLease(After(content, run + front[..i]), front[i], t, until) {
      assert front[..i] == more[..i];
    }
  }

  lemma {:induction false} LeaseKept(content: Content, run: seq<Step>, more: seq<Step>, t: ClaimTicket, until: nat)
    requires LeaseIn(After(content, run).db, t, until) && RunLeavesLease(content, run, more, t, until)
    ensures LeaseIn(After(content, run + more).db, t, until)
  {
    if more == [] {
      assert run + more == run;
    } else {
      hide Apply, LeaseIn, LeavesLease, WorldInv, RunLeavesLease;
      var front := more[..|more|-1];
      assert (run + more)[..|run + more|-1] == run + front;
      FrontLeavesLease(content, run, more, t, until);
      LeaseKept(content, run, front, t, until);
      RunKeeps(content, run + front);
      InvOf(After(content, run + front));
      StepKeepsLease(After(content, run + front), more[|more|-1], t, until);
    }
  }

  // ---- what a claim gives ----------------------------------------------------------------------------------------

  /** The lease a claim gives: a new owner, one epoch more, and the time asked for from the moment of the claim. */
  lemma ClaimGivesLease(w: World, q: nat, c: Collection, owner: nat, now: nat, duration: nat)
    requires CleanerOf(w, q).Waiting? && !CleanerOf(Apply(w, ClaimCleanup(q, c, owner, now, duration)), q).Waiting?
    ensures var after := Apply(w, ClaimCleanup(q, c, owner, now, duration));
            var t := ClaimTicket(c, owner, if c in w.db.claims then w.db.claims[c].epoch + 1 else 1);
            && CleanerOf(after, q) == Claimed(t) && LeaseIn(after.db, t, now + duration) && !after.db.claims[c].completed
            && after.db == w.db.(claims := w.db.claims[c := CleanupClaim(owner, t.epoch, now + duration, false)])
  {
    hide Deletable;
  }

  /**
   Exclusion in time. After a claim that gives a lease, whatever follows, as long as other claims of the
   collection are made before its end and the holder does not end it: the lease stands, its holder's fence is in
   force until it completes, and the collection can be claimed at some moment if and only if the holder has not
   completed and that moment is not before the end.
   */
  lemma LeaseIsHonoured(content: Content, run: seq<Step>, q: nat, c: Collection, owner: nat, now: nat, duration: nat, more: seq<Step>)
    requires CleanerOf(After(content, run), q).Waiting?
    requires CleanerOf(After(content, run + [ClaimCleanup(q, c, owner, now, duration)]), q).Claimed?
    requires var start := run + [ClaimCleanup(q, c, owner, now, duration)];
             RunLeavesLease(content, start, more, CleanerOf(After(content, start), q).ticket, now + duration)
    ensures var start := run + [ClaimCleanup(q, c, owner, now, duration)];
            var t, db := CleanerOf(After(content, start), q).ticket, After(content, start + more).db;
            && t.collection == c && t.owner == owner && LeaseIn(db, t, now + duration)
            && (Holds(db, t) <==> !db.claims[c].completed)
            && forall other, moment ::
                 ClaimResult(db, c, other, moment).Some? <==> !db.claims[c].completed && now + duration <= moment
  {
    var claim := ClaimCleanup(q, c, owner, now, duration);
    var start := run + [claim];
    assert start[..|run|] == run;
    ClaimGivesLease(After(content, run), q, c, owner, now, duration);
    RunKeeps(content, start + more);
    hide After, Apply, RunLeavesLease, WorldInv;
    LeaseKept(content, start, more, CleanerOf(After(content, start), q).ticket, now + duration);
    InvOf(After(content, start + more));
    LeaseDecides(After(content, start + more).db, CleanerOf(After(content, start), q).ticket, now + duration);
  }

  lemma LeaseDecides(db: Database, t: ClaimTicket, until: nat)
    requires Inv(db) && LeaseIn(db, t, until)
    ensures Holds(db, t) <==> !db.claims[t.collection].completed
    ensures forall other, moment ::
              ClaimResult(db, t.collection, other, moment).Some? <==> !db.claims[t.collection].completed && until <= moment
  {
    assert Deletable(db, t.collection);
  }

  /** In any database two tickets for one collection that both hold are the same. */
  lemma HeldTicketsAreOne(db: Database, a: ClaimTicket, b: ClaimTicket)
    requires Holds(db, a) && Holds(db, b) && a.collection == b.collection
    ensures a == b && !db.claims[a.collection].completed
  {}

  // ---- what a ticket is good for -------------------------------------------------------------------------------------

  predicate Holder(s: Cleaner, t: ClaimTicket) { !s.Waiting? && s.ticket == t }

  /** While the row has this ticket's epoch and somebody holds the ticket, the lease ends when it was said to. */
  ghost predicate Terms(w: World, t: ClaimTicket, until: nat) {
    && t.collection in w.db.claims && t.epoch <= w.db.claims[t.collection].epoch
    && (w.db.claims[t.collection].epoch == t.epoch ==>
          w.db.claims[t.collection].expires == until || forall q | q in w.cleaners :: !Holder(w.cleaners[q], t))
  }

  /** A ticket that nobody holds is handed out again only with a later epoch. */
  lemma HoldersStay(w: World, step: Step, t: ClaimTicket)
    requires t.collection in w.db.claims && t.epoch <= w.db.claims[t.collection].epoch
    ensures forall q | q in Apply(w, step).cleaners && Holder(Apply(w, step).cleaners[q], t) :: q in w.cleaners && Holder(w.cleaners[q], t)
  {
    hide Reserve, ReserveOutcomeOf, MarkFailed, Activate, Abandon, Complete, Expire, Authorize, Authorized, Deletable;
  }

  lemma ExpiryEndsTerms(w: World, q: nat, now: nat, t: ClaimTicket, until: nat)
    requires WorldInv(w) && Terms(w, t, until)
    ensures Terms(Apply(w, ExpireCleanup(q, now)), t, until)
  {
    hide Inv, ServingStored, CreatorsOk;
    HoldersStay(w, ExpireCleanup(q, now), t);
    var after := Apply(w, ExpireCleanup(q, now));
    if CleanerOf(w, q).Expiring? {
      forall x | x in after.cleaners && x != q && CleanerOf(w, q).ticket == t ensures !Holder(after.cleaners[x], t) {
        assert DifferentTickets(w.cleaners[q], w.cleaners[x]);
      }
      assert TicketKnown(w.db, w.cleaners[q]);
    }
  }

  /** A row that keeps its epoch, its end or its holders keeps the terms. */
  lemma TermsCarry(w: World, after: World, t: ClaimTicket, until: nat)
    requires Terms(w, t, until) && t.collection in after.db.claims
    requires forall q | q in after.cleaners && Holder(after.cleaners[q], t) :: q in w.cleaners && Holder(w.cleaners[q], t)
    requires var a, b := w.db.claims[t.collection], after.db.claims[t.collection];
             a.epoch <= b.epoch && (a.epoch == b.epoch ==> a.expires == b.expires)
    ensures Terms(after, t, until)
  {}

  lemma ClaimMovesOn(w: World, q: nat, c: Collection, owner: nat, now: nat, duration: nat, t: ClaimTicket)
    requires t.collection in w.db.claims
    ensures var after := Apply(w, ClaimCleanup(q, c, owner, now, duration));
            && t.collection in after.db.claims
            && var a, b := w.db.claims[t.collection], after.db.claims[t.collection];
               a.epoch <= b.epoch && (a.epoch == b.epoch ==> a.expires == b.expires)
  {
    hide Deletable;
  }

  lemma CompletionMovesOn(w: World, q: nat, t: ClaimTicket)
    requires t.collection in w.db.claims
    ensures var after := Apply(w, CompleteCleanup(q));
            && t.collection in after.db.claims
            && after.db.claims[t.collection].epoch == w.db.claims[t.collection].epoch
            && after.db.claims[t.collection].expires == w.db.claims[t.collection].expires
  {}

  lemma RowMovesOn(w: World, step: Step, t: ClaimTicket)
    requires Inv(w.db) && t.collection in w.db.claims && !step.ExpireCleanup?
    ensures var after := Apply(w, step);
            && t.collection in after.db.claims
            && var a, b := w.db.claims[t.collection], after.db.claims[t.collection];
               a.epoch <= b.epoch && (a.epoch == b.epoch ==> a.expires == b.expires)
  {
    hide Inv, Apply;
    match step
    case AuthorizeCleanup(q, now) => AuthorizingTouchesNoClaim(w, q, now);
    case ClaimCleanup(q, c, owner, now, duration) => ClaimMovesOn(w, q, c, owner, now, duration, t);
    case CompleteCleanup(q) => CompletionMovesOn(w, q, t);
    case _ => OthersTouchNoClaim(w, step);
  }

  lemma StepKeepsTerms(w: World, step: Step, t: ClaimTicket, until: nat)
    requires WorldInv(w) && Terms(w, t, until)
    ensures Terms(Apply(w, step), t, until)
  {
    hide WorldInv, Apply, Inv, Holder;
    if step.ExpireCleanup? {
      ExpiryEndsTerms(w, step.q, step.now, t, until);
    } else {
      InvOf(w);
      HoldersStay(w, step, t);
      RowMovesOn(w, step, t);
      TermsCarry(w, Apply(w, step), t, until);
    }
  }

  lemma {:induction false} TermsKept(content: Content, run: seq<Step>, more: seq<Step>, t: ClaimTicket, until: nat)
    requires Terms(After(content, run), t, until)
    ensures Terms(After(content, run + more), t, until)
  {
    if more == [] {
      assert run + more == run;
    } else {
      hide Apply, Terms, WorldInv;
      var front := more[..|more|-1];
      assert (run + more)[..|run + more|-1] == run + front;
      TermsKept(content, run, front, t, until);
      RunKeeps(content, run + front);
      StepKeepsTerms(After(content, run + front), more[|more|-1], t, until);
    }
  }

  /**
   A ticket clears a delete if and only if the claim row still has its epoch and is not completed, and the moment
   is before the end of the lease its claim was given, whatever happened since the claim. Otherwise its holder
   goes back to waiting. The authorization changes no row.
   */
  lemma ClearedExactly(content: Content, run: seq<Step>, q: nat, c: Collection, owner: nat, now: nat, duration: nat,
                       more: seq<Step>, s: nat, moment: nat)
    requires CleanerOf(After(content, run), q).Waiting?
    requires CleanerOf(After(content, run + [ClaimCleanup(q, c, owner, now, duration)]), q).Claimed?
    requires var start := run + [ClaimCleanup(q, c, owner, now, duration)];
             CleanerOf(After(content, start + more), s) == Claimed(CleanerOf(After(content, start), q).ticket)
    ensures var start := run + [ClaimCleanup(q, c, owner, now, duration)];
            var t, w := CleanerOf(After(content, start), q).ticket, After(content, start + more);
            var after := After(content, start + more + [AuthorizeCleanup(s, moment)]);
            && c in w.db.claims && after.db == w.db
            && CleanerOf(after, s) == if w.db.claims[c].epoch == t.epoch && !w.db.claims[c].completed && moment < now + duration
                                      then Cleared(t) else Waiting
  {
    var start := run + [ClaimCleanup(q, c, owner, now, duration)];
    assert start[..|run|] == run;
    ClaimGivesLease(After(content, run), q, c, owner, now, duration);
    var t := CleanerOf(After(content, start), q).ticket;
    TermsKept(content, start, more, t, now + duration);
    RunKeeps(content, start + more);
    assert (start + more + [AuthorizeCleanup(s, moment)])[..|start + more|] == start + more;
    ClearedDecides(After(content, start + more), s, t, now + duration, moment);
    hide Apply, Terms, WorldInv;
  }

  lemma ClearedDecides(w: World, s: nat, t: ClaimTicket, until: nat, moment: nat)
    requires WorldInv(w) && Terms(w, t, until) && CleanerOf(w, s) == Claimed(t)
    ensures var after, row := Apply(w, AuthorizeCleanup(s, moment)), w.db.claims[t.collection];
            && after.db == w.db
            && CleanerOf(after, s) == if row.epoch == t.epoch && !row.completed && moment < until then Cleared(t) else Waiting
  {
    assert Holder(w.cleaners[s], t) && TicketKnown(w.db, w.cleaners[s]);
    InvOf(w);
    AuthorizeReleasesNothing(w.db, t, moment);
    assert Deletable(w.db, t.collection);
    hide WorldInv, Deletable, Inv;
  }

  // ---- how a lease ends ------------------------------------------------------------------------------------------------

  /** The row a holder leaves behind: completed, or expired at that moment; a holder that has lost its epoch changes nothing. */
  lemma EndsItsOwnLease(content: Content, run: seq<Step>, q: nat, now: nat)
    ensures var w := After(content, run);
            CleanerOf(w, q).Deleted? ==>
              var c := CleanerOf(w, q).ticket.collection;
              && c in w.db.claims
              && After(content, run + [CompleteCleanup(q)]).db == w.db.(claims := w.db.claims[c :=
                   w.db.claims[c].(completed := w.db.claims[c].completed || w.db.claims[c].epoch == CleanerOf(w, q).ticket.epoch)])
    ensures var w := After(content, run);
            CleanerOf(w, q).Expiring? ==>
              var c := CleanerOf(w, q).ticket.collection;
              && c in w.db.claims
              && After(content, run + [ExpireCleanup(q, now)]).db == w.db.(claims := w.db.claims[c :=
                   w.db.claims[c].(expires := if !w.db.claims[c].completed && w.db.claims[c].epoch == CleanerOf(w, q).ticket.epoch
                                              then now else w.db.claims[c].expires)])
  {
    hide WorldInv, Apply;
    RunKeeps(content, run);
    assert (run + [CompleteCleanup(q)])[..|run|] == run && (run + [ExpireCleanup(q, now)])[..|run|] == run;
    EndsLease(After(content, run), q, now);
  }

  lemma EndsLease(w: World, q: nat, now: nat)
    requires WorldInv(w)
    ensures CleanerOf(w, q).Deleted? ==>
              var c := CleanerOf(w, q).ticket.collection;
              && c in w.db.claims
              && Apply(w, CompleteCleanup(q)).db == w.db.(claims := w.db.claims[c :=
                   w.db.claims[c].(completed := w.db.claims[c].completed || w.db.claims[c].epoch == CleanerOf(w, q).ticket.epoch)])
    ensures CleanerOf(w, q).Expiring? ==>
              var c := CleanerOf(w, q).ticket.collection;
              && c in w.db.claims
              && Apply(w, ExpireCleanup(q, now)).db == w.db.(claims := w.db.claims[c :=
                   w.db.claims[c].(expires := if !w.db.claims[c].completed && w.db.claims[c].epoch == CleanerOf(w, q).ticket.epoch
                                              then now else w.db.claims[c].expires)])
  {
    if !CleanerOf(w, q).Waiting? {
      assert TicketKnown(w.db, w.cleaners[q]);
      var c := w.cleaners[q].ticket.collection;
      assert w.db.claims == w.db.claims[c := w.db.claims[c]];
    }
    hide WorldInv;
  }
}
