/**
 The paging of `reconcile_orphan_collections`: one call scans a window of expired cleanup claims and
 a window of the collection listing, and hands an opaque cursor to the next call. Names are compared
 only by their order, so they are numbers here.
 */
module OrphanReconcile {
  import opened Prelude

  datatype Position = Position(expires: nat, name: nat)

  predicate Before(a: Position, b: Position) {
    a.expires < b.expires || (a.expires == b.expires && a.name < b.name)
  }

  datatype Listed = Listed(name: nat, managed: bool, created: nat)

  /** What one call sees: the open expired claims, the listing, the names with no or a failed generation, the cutoff. */
  datatype Snapshot = Snapshot(expired: seq<Position>, listing: seq<Listed>, orphans: set<nat>, cutoff: nat)
  {
    ghost predicate Valid() {
      && (forall i, j | 0 <= i < j < |expired| :: Before(expired[i], expired[j]))
      && (forall i, j | 0 <= i < j < |listing| :: listing[i].name < listing[j].name)
    }
  }

  datatype Cursor = Cursor(qdrant: Option<nat>, expiredAfter: Option<Position>, exhausted: bool, qdrantTurn: bool)

  const START := Cursor(None, None, false, false)

  datatype Result = Result(scanned: seq<Position>, page: Option<seq<Listed>>, candidates: seq<nat>, next: Option<Cursor>)

  // ---- the two listings ---------------------------------------------------------------------------

  function RowsAfter(rows: seq<Position>, p: Option<Position>): seq<Position> {
    if p.None? || rows == [] || Before(p.value, rows[0]) then rows else RowsAfter(rows[1..], p)
  }

  function ListedAfter(rows: seq<Listed>, cursor: Option<nat>): seq<Listed> {
    if cursor.None? || rows == [] || rows[0].name > cursor.value then rows else ListedAfter(rows[1..], cursor)
  }

  function Take<T>(s: seq<T>, n: nat): seq<T> { if |s| <= n then s else s[..n] }

  /** next_cursor of list_managed_collections: the last name of a page that is not the last page. */
  function PageNext(rest: seq<Listed>, limit: nat): Option<nat>
    requires limit > 0
  {
    if |rest| > limit then Some(rest[limit-1].name) else None
  }

  // ---- one call -------------------------------------------------------------------------------------

  function ScanBudget(limit: nat, turn: bool): nat {
    if limit == 1 then (if turn then 0 else 1) else if limit / 2 > 1 then limit / 2 else 1
  }

  function EligibleNames(scanned: seq<Position>, orphans: set<nat>): seq<nat> {
    if scanned == [] then []
    else EligibleNames(scanned[..|scanned|-1], orphans)
         + (if scanned[|scanned|-1].name in orphans then [scanned[|scanned|-1].name] else [])
  }

  predicate PageCandidate(c: Listed, s: Snapshot) { c.managed && c.created < s.cutoff && c.name in s.orphans }

  function WithPage(candidates: seq<nat>, page: seq<Listed>, s: Snapshot): seq<nat> {
    if page == [] then candidates
    else
      var before := WithPage(candidates, page[..|page|-1], s);
      var c := page[|page|-1];
      if PageCandidate(c, s) && c.name !in before then before + [c.name] else before
  }

  /** Where the expired scan starts: from the beginning again once it was exhausted. */
  function ScanFrom(limit: nat, cursor: Cursor): Option<Position> {
    if ScanBudget(limit, cursor.qdrantTurn) > 0 && cursor.exhausted then None else cursor.expiredAfter
  }

  function Scanned(s: Snapshot, limit: nat, cursor: Cursor): seq<Position> {
    Take(RowsAfter(s.expired, ScanFrom(limit, cursor)), ScanBudget(limit, cursor.qdrantTurn))
  }

  function ExhaustedAfter(s: Snapshot, limit: nat, cursor: Cursor): bool {
    var budget := ScanBudget(limit, cursor.qdrantTurn);
    if budget == 0 then cursor.exhausted else |RowsAfter(s.expired, ScanFrom(limit, cursor))| <= budget
  }

  function PositionAfter(s: Snapshot, limit: nat, cursor: Cursor): Option<Position> {
    var scanned := Scanned(s, limit, cursor);
    if scanned == [] then ScanFrom(limit, cursor) else Some(scanned[|scanned|-1])
  }

  function PageBudget(s: Snapshot, limit: nat, cursor: Cursor): int {
    limit - |EligibleNames(Scanned(s, limit, cursor), s.orphans)|
  }

  function Reconcile(s: Snapshot, limit: nat, cursor: Cursor): Result
    requires 1 <= limit
  {
    var scanned := Scanned(s, limit, cursor);
    var eligible := EligibleNames(scanned, s.orphans);
    var exhausted := ExhaustedAfter(s, limit, cursor);
    var budget := PageBudget(s, limit, cursor);
    var position := PositionAfter(s, limit, cursor);
    if budget <= 0 then
      Result(scanned, None, eligible, Some(Cursor(cursor.qdrant, position, exhausted, true)))
    else
      var rest := ListedAfter(s.listing, cursor.qdrant);
      var page := Take(rest, budget);
      var next := PageNext(rest, budget);
      Result(scanned, Some(page), WithPage(eligible, page, s),
             if next.Some? || !exhausted then Some(Cursor(next, position, exhausted, false)) else None)
  }

  /** The expired scan of one call. */
  method ScanExpired(s: Snapshot, limit: nat, cursor: Cursor)
    returns (scanned: seq<Position>, candidates: seq<nat>, expiredAfter: Option<Position>, exhausted: bool)
    requires 1 <= limit <= 100
    ensures scanned == Scanned(s, limit, cursor) && candidates == EligibleNames(scanned, s.orphans)
    ensures expiredAfter == PositionAfter(s, limit, cursor) && exhausted == ExhaustedAfter(s, limit, cursor)
    ensures |scanned| <= limit
  {
    var budget := if limit == 1 && !cursor.qdrantTurn then 1 else if limit / 2 > 1 then limit / 2 else 1;
    if limit == 1 && cursor.qdrantTurn { budget := 0; }
    expiredAfter, exhausted := cursor.expiredAfter, cursor.exhausted;
    if budget != 0 && exhausted { expiredAfter, exhausted := None, false; }
    scanned, candidates := [], [];
    if budget != 0 {
      var rows := RowsAfter(s.expired, expiredAfter);
      scanned := Take(rows, budget);
      candidates := EligibleLoop(scanned, s.orphans);
      exhausted := |rows| <= budget;
      if scanned != [] { expiredAfter := Some(scanned[|scanned|-1]); }
    }
  }

  /** One call as the service runs it, with its candidate list built by loops. */
  method ReconcileCall(s: Snapshot, limit: nat, cursor: Cursor) returns (result: Result)
    requires 1 <= limit <= 100
    ensures result == Reconcile(s, limit, cursor)
    ensures |result.candidates| <= limit
    ensures forall name :: name in result.candidates <==> Deserves(s, result, name)
  {
    CandidatesExactly(s, limit, cursor);
    var scanned, candidates, expiredAfter, exhausted := ScanExpired(s, limit, cursor);
    hide Scanned, EligibleNames, PositionAfter, ExhaustedAfter, WithPage, ListedAfter;
    var pageBudget := limit - |candidates|;
    EligibleBounded(scanned, s.orphans);
    if pageBudget == 0 {
      return Result(scanned, None, candidates, Some(Cursor(cursor.qdrant, expiredAfter, exhausted, true)));
    }
    var rest := ListedAfter(s.listing, cursor.qdrant);
    var page := Take(rest, pageBudget);
    var next := PageNext(rest, pageBudget);
    candidates := PageLoop(candidates, page, s);
    result := Result(scanned, Some(page), candidates,
                     if next.Some? || !exhausted then Some(Cursor(next, expiredAfter, exhausted, false)) else None);
  }

  method PageLoop(eligible: seq<nat>, page: seq<Listed>, s: Snapshot) returns (candidates: seq<nat>)
    ensures candidates == WithPage(eligible, page, s)
    ensures |candidates| <= |eligible| + |page|
  {
    candidates := eligible;
    assert page[..0] == [];
    for i := 0 to |page|
      invariant candidates == WithPage(eligible, page[..i], s)
      invariant |candidates| <= |eligible| + i
    {
      assert page[..i+1][..|page[..i+1]|-1] == page[..i];
      if PageCandidate(page[i], s) && page[i].name !in candidates {
        candidates := candidates + [page[i].name];
      }
    }
    assert page[..|page|] == page;
  }

  method EligibleLoop(scanned: seq<Position>, orphans: set<nat>) returns (names: seq<nat>)
    ensures names == EligibleNames(scanned, orphans)
  {
    names := [];
    assert scanned[..0] == [];
    for i := 0 to |scanned|
      invariant names == EligibleNames(scanned[..i], orphans)
    {
      assert scanned[..i+1][..|scanned[..i+1]|-1] == scanned[..i];
      if scanned[i].name in orphans { names := names + [scanned[i].name]; }
    }
    assert scanned[..|scanned|] == scanned;
  }

  lemma {:induction false} EligibleBounded(scanned: seq<Position>, orphans: set<nat>)
    ensures |EligibleNames(scanned, orphans)| <= |scanned|
    ensures forall i | 0 <= i < |scanned| && scanned[i].name in orphans :: scanned[i].name in EligibleNames(scanned, orphans)
  {
    if scanned != [] {
      EligibleBounded(scanned[..|scanned|-1], orphans);
    }
  }

  lemma {:induction false} PageCandidatesTaken(candidates: seq<nat>, page: seq<Listed>, s: Snapshot)
    ensures forall n | n in candidates :: n in WithPage(candidates, page, s)
    ensures forall i | 0 <= i < |page| && PageCandidate(page[i], s) :: page[i].name in WithPage(candidates, page, s)
  {
    if page != [] {
      PageCandidatesTaken(candidates, page[..|page|-1], s);
    }
  }

  // ---- who becomes a candidate -------------------------------------------------------------------------

  /** The collection of an expired claim that was scanned, and it is an orphan. */
  predicate ClaimedOrphan(s: Snapshot, result: Result, name: nat) {
    name in s.orphans && exists i | 0 <= i < |result.scanned| :: result.scanned[i].name == name
  }

  /** A collection of the page that is managed, older than the cutoff, and an orphan. */
  predicate ListedOrphan(s: Snapshot, result: Result, name: nat) {
    && result.page.Some? && name in s.orphans
    && exists i | 0 <= i < |result.page.value| ::
         && result.page.value[i].name == name && result.page.value[i].managed && result.page.value[i].created < s.cutoff
  }

  predicate Deserves(s: Snapshot, result: Result, name: nat) { ClaimedOrphan(s, result, name) || ListedOrphan(s, result, name) }

  lemma {:induction false} EligibleExactly(scanned: seq<Position>, orphans: set<nat>, name: nat)
    ensures name in EligibleNames(scanned, orphans) <==> name in orphans && exists i | 0 <= i < |scanned| :: scanned[i].name == name
  {
    if scanned != [] {
      var front, last := scanned[..|scanned|-1], scanned[|scanned|-1];
      EligibleExactly(front, orphans, name);
      assert scanned[|front|] == last && forall i | 0 <= i < |front| :: front[i] == scanned[i];
    }
  }

  lemma {:induction false} PageExactly(candidates: seq<nat>, page: seq<Listed>, s: Snapshot, name: nat)
    ensures name in WithPage(candidates, page, s) <==>
              || name in candidates
              || (name in s.orphans && exists i | 0 <= i < |page| :: page[i].name == name && page[i].managed && page[i].created < s.cutoff)
  {
    if page != [] {
      var front, last := page[..|page|-1], page[|page|-1];
      PageExactly(candidates, front, s, name);
      assert page[|front|] == last && forall i | 0 <= i < |front| :: front[i] == page[i];
    }
  }

  /**
   A call takes a name as a candidate if and only if it is an orphan, and either its expired claim was scanned by this
   call, or it is on the page of this call, managed and created before the cutoff.
   */
  lemma CandidatesExactly(s: Snapshot, limit: nat, cursor: Cursor)
    requires 1 <= limit
    ensures var result := Reconcile(s, limit, cursor);
            forall name :: name in result.candidates <==> Deserves(s, result, name)
  {
    var result := Reconcile(s, limit, cursor);
    forall name ensures name in result.candidates <==> Deserves(s, result, name) {
      EligibleExactly(result.scanned, s.orphans, name);
      if result.page.Some? {
        PageExactly(EligibleNames(result.scanned, s.orphans), result.page.value, s, name);
      }
    }
  }

  predicate AllDifferent(names: seq<nat>) { forall i, j | 0 <= i < j < |names| :: names[i] != names[j] }

  predicate OneClaimEach(rows: seq<Position>) { forall i, j | 0 <= i < j < |rows| :: rows[i].name != rows[j].name }

  lemma {:induction false} EligibleDiffer(scanned: seq<Position>, orphans: set<nat>)
    requires OneClaimEach(scanned)
    ensures AllDifferent(EligibleNames(scanned, orphans))
  {
    if scanned != [] {
      var front, last := scanned[..|scanned|-1], scanned[|scanned|-1];
      EligibleDiffer(front, orphans);
      EligibleExactly(front, orphans, last.name);
    }
  }

  lemma {:induction false} PageDiffers(candidates: seq<nat>, page: seq<Listed>, s: Snapshot)
    requires AllDifferent(candidates)
    ensures AllDifferent(WithPage(candidates, page, s))
  {
    if page != [] {
      PageDiffers(candidates, page[..|page|-1], s);
    }
  }

  lemma {:induction false} RowsAfterDiffer(rows: seq<Position>, p: Option<Position>)
    requires OneClaimEach(rows)
    ensures OneClaimEach(RowsAfter(rows, p)) && |RowsAfter(rows, p)| <= |rows|
  {
    if p.Some? && rows != [] && !Before(p.value, rows[0]) {
      RowsAfterDiffer(rows[1..], p);
    }
  }

  /** Where a collection has one claim at the most, no candidate is taken twice by a call. */
  lemma CandidatesDiffer(s: Snapshot, limit: nat, cursor: Cursor)
    requires 1 <= limit && OneClaimEach(s.expired)
    ensures AllDifferent(Reconcile(s, limit, cursor).candidates)
  {
    RowsAfterDiffer(s.expired, ScanFrom(limit, cursor));
    var result := Reconcile(s, limit, cursor);
    EligibleDiffer(result.scanned, s.orphans);
    if result.page.Some? {
      PageDiffers(EligibleNames(result.scanned, s.orphans), result.page.value, s);
    }
  }

  /**
   Neither listing starves the other: a call of a limit above one scans half its limit of claims, at least one, as long as
   that many are left behind its position, and gives the page all the room the scanned orphans leave, at least half the limit.
   */
  lemma FairShares(s: Snapshot, limit: nat, cursor: Cursor)
    requires 2 <= limit
    ensures var result, left := Reconcile(s, limit, cursor), RowsAfter(s.expired, if cursor.exhausted then None else cursor.expiredAfter);
            var half := if limit < 4 then 1 else limit / 2;
            && result.scanned == (if |left| <= half then left else left[..half])
            && result.page.Some?
            && var rest := ListedAfter(s.listing, cursor.qdrant);
               var room := limit - |EligibleNames(result.scanned, s.orphans)|;
               room >= limit - half && result.page.value == if |rest| <= room then rest else rest[..room]
  {
    EligibleBounded(Scanned(s, limit, cursor), s.orphans);
    hide EligibleNames, RowsAfter, ListedAfter, WithPage;
  }

  /** With a limit of one the two take turns: a call that has taken a claimed orphan leaves the page to the next call. */
  lemma TakesTurns(s: Snapshot, cursor: Cursor)
    ensures var result, left := Reconcile(s, 1, cursor), RowsAfter(s.expired, if cursor.exhausted then None else cursor.expiredAfter);
            && result.scanned == (if cursor.qdrantTurn || left == [] then [] else left[..1])
            && (result.page.None? <==> result.scanned != [] && result.scanned[0].name in s.orphans)
            && (result.page.None? ==> result.next.Some? && result.next.value.qdrantTurn && result.next.value.qdrant == cursor.qdrant)
            && (result.page.Some? ==>
                  && result.page.value == (var rest := ListedAfter(s.listing, cursor.qdrant); if |rest| <= 1 then rest else rest[..1])
                  && (result.next.Some? ==> !result.next.value.qdrantTurn))
  {
    var scanned := Scanned(s, 1, cursor);
    assert EligibleNames([], s.orphans) == [];
    assert scanned != [] ==> |scanned| == 1 && scanned[..0] == [];
    hide RowsAfter, ListedAfter, WithPage;
  }

  // ---- what a window leaves behind ------------------------------------------------------------------

  lemma {:induction false} RowsAfterExact(rows: seq<Position>, p: Option<Position>, x: Position)
    requires forall i, j | 0 <= i < j < |rows| :: Before(rows[i], rows[j])
    requires x in rows
    ensures x in RowsAfter(rows, p) <==> p.None? || Before(p.value, x)
    ensures forall i, j | 0 <= i < j < |RowsAfter(rows, p)| :: Before(RowsAfter(rows, p)[i], RowsAfter(rows, p)[j])
  {
    if p.Some? && !Before(p.value, rows[0]) {
      if x in rows[1..] {
        RowsAfterExact(rows[1..], p, x);
      } else {
        assert x == rows[0];
        RowsAfterDrops(rows[1..], p, x);
      }
    } else if p.Some? {
      assert Before(p.value, x);
    }
  }

  lemma {:induction false} RowsAfterDrops(rows: seq<Position>, p: Option<Position>, x: Position)
    requires forall i, j | 0 <= i < j < |rows| :: Before(rows[i], rows[j])
    requires forall i | 0 <= i < |rows| :: Before(x, rows[i])
    ensures x !in RowsAfter(rows, p)
    ensures forall i, j | 0 <= i < j < |RowsAfter(rows, p)| :: Before(RowsAfter(rows, p)[i], RowsAfter(rows, p)[j])
  {
    if p.Some? && rows != [] && !Before(p.value, rows[0]) {
      RowsAfterDrops(rows[1..], p, x);
    }
  }

  lemma {:induction false} ListedAfterExact(rows: seq<Listed>, cursor: Option<nat>, x: Listed)
    requires forall i, j | 0 <= i < j < |rows| :: rows[i].name < rows[j].name
    requires x in rows
    ensures x in ListedAfter(rows, cursor) <==> cursor.None? || x.name > cursor.value
    ensures forall i, j | 0 <= i < j < |ListedAfter(rows, cursor)| ::
              ListedAfter(rows, cursor)[i].name < ListedAfter(rows, cursor)[j].name
  {
    if cursor.Some? && rows[0].name <= cursor.value {
      if x in rows[1..] {
        ListedAfterExact(rows[1..], cursor, x);
      } else {
        assert x == rows[0];
        ListedAfterDrops(rows[1..], cursor, x);
      }
    }
  }

  lemma {:induction false} ListedAfterDrops(rows: seq<Listed>, cursor: Option<nat>, x: Listed)
    requires forall i, j | 0 <= i < j < |rows| :: rows[i].name < rows[j].name
    requires forall i | 0 <= i < |rows| :: x.name < rows[i].name
    ensures x !in ListedAfter(rows, cursor)
    ensures forall i, j | 0 <= i < j < |ListedAfter(rows, cursor)| ::
              ListedAfter(rows, cursor)[i].name < ListedAfter(rows, cursor)[j].name
  {
    if cursor.Some? && rows != [] && rows[0].name <= cursor.value {
      ListedAfterDrops(rows[1..], cursor, x);
    }
  }

  // ---- chains ---------------------------------------------------------------------------------------

  datatype Call = Call(snapshot: Snapshot, limit: nat, cursor: Cursor)

  function ResultOf(c: Call): Result
    requires 1 <= c.limit
  {
    Reconcile(c.snapshot, c.limit, c.cursor)
  }

  /** Each call takes the cursor the previous one returned; the first takes none. The world may change in between. */
  ghost predicate Chain(calls: seq<Call>) {
    && |calls| > 0
    && calls[0].cursor == START
    && (forall i | 0 <= i < |calls| :: calls[i].snapshot.Valid() && 1 <= calls[i].limit <= 100)
    && (forall i | 0 < i < |calls| :: ResultOf(calls[i-1]).next == Some(calls[i].cursor))
  }

  ghost predicate ListedThroughout(calls: seq<Call>, x: Listed) {
    forall i | 0 <= i < |calls| :: x in calls[i].snapshot.listing
  }

  ghost predicate ExpiredThroughout(calls: seq<Call>, p: Position) {
    forall i | 0 <= i < |calls| :: p in calls[i].snapshot.expired
  }

  predicate PageShows(c: Call, x: Listed)
    requires 1 <= c.limit
  {
    ResultOf(c).page.Some? && x in ResultOf(c).page.value
  }

  ghost predicate PageExamined(calls: seq<Call>, x: Listed)
    requires forall i | 0 <= i < |calls| :: 1 <= calls[i].limit
  {
    exists i | 0 <= i < |calls| :: PageShows(calls[i], x)
  }

  ghost predicate ClaimExamined(calls: seq<Call>, p: Position)
    requires forall i | 0 <= i < |calls| :: 1 <= calls[i].limit
  {
    exists i | 0 <= i < |calls| :: p in ResultOf(calls[i]).scanned
  }

  /** The listing cursor after a call is behind everything not yet shown. */
  lemma EarlierPage(calls: seq<Call>, n: nat, x: Listed)
    requires n <= |calls| && Chain(calls) && Chain(calls[..n]) && PageExamined(calls[..n], x)
    ensures PageExamined(calls, x)
  {
    var i :| 0 <= i < n && PageShows(calls[..n][i], x);
    assert PageShows(calls[i], x);
  }

  lemma LatestPage(calls: seq<Call>, x: Listed)
    requires Chain(calls)
    ensures PageShows(calls[|calls|-1], x) ==> PageExamined(calls, x)
  {}

  /** The cursor says that everything up to a name has been listed. */
  predicate ListedUpTo(cursor: Option<Cursor>, x: Listed) {
    cursor.None? || (cursor.value.qdrant.Some? && x.name <= cursor.value.qdrant.value)
  }

  /** One page: what the next cursor has passed is on it, or was passed before. */
  lemma PageProgress(call: Call, x: Listed)
    requires call.snapshot.Valid() && 1 <= call.limit <= 100 && x in call.snapshot.listing
    ensures ListedUpTo(ResultOf(call).next, x) ==> PageShows(call, x) || ListedUpTo(Some(call.cursor), x)
  {
    ListedAfterExact(call.snapshot.listing, call.cursor.qdrant, x);
    var rest := ListedAfter(call.snapshot.listing, call.cursor.qdrant);
    var result := ResultOf(call);
    if result.page.Some? && x in rest {
      var budget := PageBudget(call.snapshot, call.limit, call.cursor);
      var k :| 0 <= k < |rest| && rest[k] == x;
      if |rest| <= budget || k < budget {
        assert result.page.value[k] == x;
      } else {
        assert rest[budget-1].name < x.name;
      }
    }
  }

  lemma {:induction false} ListingProgress(calls: seq<Call>, x: Listed)
    requires Chain(calls) && ListedThroughout(calls, x)
    ensures ListedUpTo(ResultOf(calls[|calls|-1]).next, x) ==> PageExamined(calls, x)
  {
    var last := |calls| - 1;
    PageProgress(calls[last], x);
    if last > 0 {
      var earlier := calls[..last];
      assert Chain(earlier) && ListedThroughout(earlier, x);
      ListingProgress(earlier, x);
      assert earlier[|earlier|-1] == calls[last-1];
      hide ResultOf, PageShows, PageExamined;
      if PageExamined(earlier, x) {
        EarlierPage(calls, last, x);
      }
      LatestPage(calls, x);
    } else {
      LatestPage(calls, x);
    }
  }

  /** One window of the claim scan: what it starts after, it scans or leaves beyond its new position. */
  lemma ScanWindow(s: Snapshot, limit: nat, cursor: Cursor, p: Position)
    requires s.Valid() && p in s.expired
    requires ScanFrom(limit, cursor).None? || Before(ScanFrom(limit, cursor).value, p)
    requires p !in Scanned(s, limit, cursor)
    ensures ScanBudget(limit, cursor.qdrantTurn) > 0 ==> !ExhaustedAfter(s, limit, cursor)
    ensures PositionAfter(s, limit, cursor).Some? ==> Before(PositionAfter(s, limit, cursor).value, p)
  {
    var from := ScanFrom(limit, cursor);
    RowsAfterExact(s.expired, from, p);
    var rows := RowsAfter(s.expired, from);
    var scanned := Scanned(s, limit, cursor);
    var k :| 0 <= k < |rows| && rows[k] == p;
    assert forall m | 0 <= m < |scanned| :: scanned[m] == rows[m];
    assert k >= |scanned|;
    if scanned != [] {
      assert Before(rows[|scanned|-1], rows[k]);
    }
  }

  ghost predicate BehindScan(calls: seq<Call>, p: Position)
    requires |calls| > 0
  {
    var call := calls[|calls|-1];
    var position := PositionAfter(call.snapshot, call.limit, call.cursor);
    (position.Some? && !Before(position.value, p)) || ExhaustedAfter(call.snapshot, call.limit, call.cursor)
  }

  /** The claim cursor after a call is behind every claim not yet scanned, and `exhausted` means none is left. */
  lemma {:induction false} ClaimProgress(calls: seq<Call>, p: Position)
    requires Chain(calls) && ExpiredThroughout(calls, p)
    ensures BehindScan(calls, p) ==> ClaimExamined(calls, p)
  {
    var last := |calls| - 1;
    var call := calls[last];
    assert ResultOf(call).scanned == Scanned(call.snapshot, call.limit, call.cursor);
    if last > 0 {
      var earlier := calls[..last];
      assert Chain(earlier) && ExpiredThroughout(earlier, p);
      ClaimProgress(earlier, p);
      CursorRemembers(calls[last-1]);
      if BehindScan(earlier, p) {
        var i :| 0 <= i < |earlier| && p in ResultOf(earlier[i]).scanned;
        assert p in ResultOf(calls[i]).scanned;
        return;
      }
    }
    if p !in ResultOf(call).scanned {
      ScanWindow(call.snapshot, call.limit, call.cursor, p);
    }
  }

  lemma CursorRemembers(c: Call)
    requires 1 <= c.limit && ResultOf(c).next.Some?
    ensures ResultOf(c).next.value.expiredAfter == PositionAfter(c.snapshot, c.limit, c.cursor)
    ensures ResultOf(c).next.value.exhausted == ExhaustedAfter(c.snapshot, c.limit, c.cursor)
  {}

  /**
   Coverage. A chain of calls that starts and ends with no cursor, for any limits from 1 to 100 and
   whatever else changed between the calls, examined every collection and every open expired claim
   that stayed in place throughout.
   */
  lemma ChainCoversEverything(calls: seq<Call>, x: Listed, p: Position)
    requires Chain(calls)
    requires ResultOf(calls[|calls|-1]).next.None?
    ensures ListedThroughout(calls, x) ==> PageExamined(calls, x)
    ensures ExpiredThroughout(calls, p) ==> ClaimExamined(calls, p)
  {
    if ListedThroughout(calls, x) {
      ListingProgress(calls, x);
    }
    if ExpiredThroughout(calls, p) {
      ClaimProgress(calls, p);
    }
  }

  /** An orphan that stays old, managed and orphaned is not only examined: some call takes it as a candidate. */
  lemma ChainTakesEveryOrphan(calls: seq<Call>, x: Listed) returns (i: nat)
    requires Chain(calls)
    requires ResultOf(calls[|calls|-1]).next.None?
    requires ListedThroughout(calls, x)
    requires x.managed
    requires forall k | 0 <= k < |calls| :: x.created < calls[k].snapshot.cutoff && x.name in calls[k].snapshot.orphans
    ensures i < |calls| && x.name in ResultOf(calls[i]).candidates
  {
    ListingProgress(calls, x);
    i :| 0 <= i < |calls| && PageShows(calls[i], x);
    var c := calls[i];
    PageCandidatesTaken(EligibleNames(Scanned(c.snapshot, c.limit, c.cursor), c.snapshot.orphans), ResultOf(c).page.value, c.snapshot);
  }

  /** The same for an abandoned claim whose collection stays orphaned. */
  lemma ChainTakesEveryClaim(calls: seq<Call>, p: Position) returns (i: nat)
    requires Chain(calls)
    requires ResultOf(calls[|calls|-1]).next.None?
    requires ExpiredThroughout(calls, p)
    requires forall k | 0 <= k < |calls| :: p.name in calls[k].snapshot.orphans
    ensures i < |calls| && p.name in ResultOf(calls[i]).candidates
  {
    ClaimProgress(calls, p);
    i :| 0 <= i < |calls| && p in ResultOf(calls[i]).scanned;
    var c := calls[i];
    EligibleBounded(ResultOf(c).scanned, c.snapshot.orphans);
    if ResultOf(c).page.Some? {
      PageCandidatesTaken(EligibleNames(ResultOf(c).scanned, c.snapshot.orphans), ResultOf(c).page.value, c.snapshot);
    }
  }
}
