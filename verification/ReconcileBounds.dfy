/**
 Following the cursors of `reconcile_orphan_collections` in a world that shrinks: where every claim a call
 has scanned is gone before the next, and nothing new appears, the calls come to an end from any cursor,
 within a bound that can be read off the first call.
 */
module ReconcileBounds {
  import opened Prelude
  import opened OrphanReconcile

  /** The claims the call has scanned have left, and nothing has been added. */
  ghost predicate Shrinks(c: Call, later: Snapshot)
    requires 1 <= c.limit
  {
    && (forall p | p in later.expired :: p in c.snapshot.expired && p !in ResultOf(c).scanned)
    && (forall x | x in later.listing :: x in c.snapshot.listing)
  }

  predicate CallOk(c: Call) { 1 <= c.limit <= 100 }

  /** Calls from any cursor, each with the cursor the one before returned. */
  ghost predicate Shrinking(calls: seq<Call>) {
    && |calls| > 0 && (forall c | c in calls :: CallOk(c) && c.snapshot.Valid())
    && forall i, j | 0 <= i && j == i + 1 < |calls| ::
         ResultOf(calls[i]).next == Some(calls[j].cursor) && Shrinks(calls[i], calls[j].snapshot)
  }

  /** How many calls may pass before one of them has to scan a claim, if there is one. */
  function Waiting(cursor: Cursor): nat {
    (if cursor.exhausted then 0 else 2) + (if cursor.qdrantTurn then 1 else 0)
  }

  /** A bound on the calls that may follow. */
  function Work(s: Snapshot, cursor: Cursor): nat {
    if s.expired == [] && Waiting(cursor) == 0 then |ListedAfter(s.listing, cursor.qdrant)|
    else 4 * |s.expired| + Waiting(cursor) + |s.listing|
  }

  lemma {:induction false} NoLonger<T>(a: seq<T>, b: seq<T>)
    requires forall i, j | 0 <= i < j < |a| :: a[i] != a[j]
    requires forall x | x in a :: x in b
    ensures |a| <= |b|
  {
    if a != [] {
      var front, last := a[..|a|-1], a[|a|-1];
      assert last in b;
      var k :| 0 <= k < |b| && b[k] == last;
      forall x | x in front ensures x in b[..k] + b[k+1..] {
        assert x in a && x != last;
      }
      NoLonger(front, b[..k] + b[k+1..]);
    }
  }

  lemma Shorter<T>(a: seq<T>, b: seq<T>, x: T)
    requires forall i, j | 0 <= i < j < |a| :: a[i] != a[j]
    requires forall y | y in a :: y in b
    requires x in b && x !in a
    ensures |a| < |b|
  {
    var k :| 0 <= k < |b| && b[k] == x;
    forall y | y in a ensures y in b[..k] + b[k+1..] {}
    NoLonger(a, b[..k] + b[k+1..]);
  }

  lemma {:induction false} RowsAfterIsPart(rows: seq<Position>, p: Option<Position>)
    ensures forall x | x in RowsAfter(rows, p) :: x in rows
  {
    if p.Some? && rows != [] && !Before(p.value, rows[0]) {
      RowsAfterIsPart(rows[1..], p);
    }
  }

  lemma {:induction false} ListedAfterIsPart(rows: seq<Listed>, cursor: Option<nat>)
    ensures forall x | x in ListedAfter(rows, cursor) :: x in rows
    ensures |ListedAfter(rows, cursor)| <= |rows|
  {
    if cursor.Some? && rows != [] && rows[0].name <= cursor.value {
      ListedAfterIsPart(rows[1..], cursor);
    }
  }

  lemma WorldShrinks(c: Call, later: Snapshot)
    requires CallOk(c) && c.snapshot.Valid() && later.Valid() && Shrinks(c, later)
    ensures |later.expired| <= |c.snapshot.expired| && |later.listing| <= |c.snapshot.listing|
    ensures Scanned(c.snapshot, c.limit, c.cursor) != [] ==> |later.expired| < |c.snapshot.expired|
  {
    var scanned := Scanned(c.snapshot, c.limit, c.cursor);
    NoLonger(later.listing, c.snapshot.listing);
    NoLonger(later.expired, c.snapshot.expired);
    assert ResultOf(c).scanned == scanned;
    if scanned != [] {
      RowsAfterIsPart(c.snapshot.expired, ScanFrom(c.limit, c.cursor));
      assert scanned[0] in RowsAfter(c.snapshot.expired, ScanFrom(c.limit, c.cursor));
      assert scanned[0] in scanned;
      Shorter(later.expired, c.snapshot.expired, scanned[0]);
    }
  }

  /** A call that scans nothing comes nearer to one that does. */
  lemma WaitsLess(c: Call)
    requires CallOk(c) && Scanned(c.snapshot, c.limit, c.cursor) == [] && ResultOf(c).next.Some?
    requires c.snapshot.expired != [] || Waiting(c.cursor) > 0
    ensures Waiting(ResultOf(c).next.value) < Waiting(c.cursor)
  {
    assert EligibleNames([], c.snapshot.orphans) == [];
    hide WithPage, ListedAfter;
  }

  /** With no claim left every page is a step through the listing. */
  lemma ListsOn(c: Call, later: Snapshot)
    requires CallOk(c) && c.snapshot.Valid() && later.Valid() && Shrinks(c, later) && ResultOf(c).next.Some?
    requires c.snapshot.expired == [] && Waiting(c.cursor) == 0
    ensures var next := ResultOf(c).next.value;
            later.expired == [] && Waiting(next) == 0 && Work(later, next) < Work(c.snapshot, c.cursor)
  {
    var s, from, next := c.snapshot, c.cursor.qdrant, ResultOf(c).next.value;
    assert Scanned(s, c.limit, c.cursor) == [] && EligibleNames([], s.orphans) == [];
    NoLonger(later.expired, s.expired);
    var rest := ListedAfter(s.listing, from);
    var x := rest[c.limit-1];
    assert next.qdrant == Some(x.name) && Waiting(next) == 0;
    ListedAfterIsPart(s.listing, from);
    LaterPages(s.listing, later.listing, from, x);
  }

  lemma LaterPages(listing: seq<Listed>, later: seq<Listed>, from: Option<nat>, x: Listed)
    requires forall i, j | 0 <= i < j < |listing| :: listing[i].name < listing[j].name
    requires forall i, j | 0 <= i < j < |later| :: later[i].name < later[j].name
    requires forall y | y in later :: y in listing
    requires x in ListedAfter(listing, from) && x in listing
    ensures |ListedAfter(later, Some(x.name))| < |ListedAfter(listing, from)|
  {
    var left := ListedAfter(later, Some(x.name));
    ListedAfterIsPart(later, Some(x.name));
    ListedAfterExact(listing, from, x);
    forall y | y in left ensures y in ListedAfter(listing, from) && y.name > x.name {
      ListedAfterExact(later, Some(x.name), y);
      ListedAfterExact(listing, from, y);
    }
    if left != [] {
      ListedAfterExact(later, Some(x.name), left[0]);
    }
    Shorter(left, ListedAfter(listing, from), x);
  }

  lemma WorkIsBounded(s: Snapshot, cursor: Cursor)
    ensures Work(s, cursor) <= 4 * |s.expired| + Waiting(cursor) + |s.listing|
  {
    ListedAfterIsPart(s.listing, cursor.qdrant);
  }

  lemma WorkDecreases(c: Call, later: Snapshot)
    requires CallOk(c) && c.snapshot.Valid() && later.Valid() && Shrinks(c, later) && ResultOf(c).next.Some?
    ensures Work(later, ResultOf(c).next.value) < Work(c.snapshot, c.cursor)
  {
    var next := ResultOf(c).next.value;
    WorldShrinks(c, later);
    WorkIsBounded(later, next);
    if c.snapshot.expired == [] && Waiting(c.cursor) == 0 {
      ListsOn(c, later);
    } else if Scanned(c.snapshot, c.limit, c.cursor) == [] {
      WaitsLess(c);
    }
    hide ResultOf, Scanned, Shrinks, ListedAfter;
  }

  /**
   From any cursor and with any limits: as long as scanned claims leave and nothing is added, there are no more
   calls than four for each open claim, one for each collection and four.
   */
  lemma {:induction false} ShrinkingWorldEnds(calls: seq<Call>)
    requires Shrinking(calls)
    ensures |calls| <= Work(calls[0].snapshot, calls[0].cursor) + 1
    ensures |calls| <= 4 * |calls[0].snapshot.expired| + |calls[0].snapshot.listing| + 4
  {
    hide Work, ResultOf, Shrinks;
    var first := calls[0];
    WorkIsBounded(first.snapshot, first.cursor);
    if |calls| > 1 {
      var rest := calls[1..];
      assert forall c | c in rest :: c in calls;
      assert Shrinking(rest) by {
        forall i, j | 0 <= i && j == i + 1 < |rest|
          ensures ResultOf(rest[i]).next == Some(rest[j].cursor) && Shrinks(rest[i], rest[j].snapshot)
        {
          assert rest[i] == calls[i + 1] && rest[j] == calls[j + 1];
        }
      }
      assert first in calls && calls[1] in calls;
      WorkDecreases(first, calls[1].snapshot);
      ShrinkingWorldEnds(rest);
    }
  }
}
