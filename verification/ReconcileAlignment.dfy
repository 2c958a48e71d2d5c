/**
 Exactly when following the cursors of `reconcile_orphan_collections` ends in a world that does not change,
 from whatever cursor an earlier world has left behind. The scan of the claims and the pages of the listing
 both start over when they are through, and a chain ends when they are through in the same turn: two
 counters with different periods, which meet if and only if the greatest common divisor of the periods
 divides the difference of what is left on them.
 */
module ReconcileAlignment {
  import opened Prelude
  import opened OrphanReconcile
  import opened ReconcileTermination

  // ---- two counters ------------------------------------------------------------------------------------------------

  /** A counter with `left` turns left, and `period` whenever it starts over, is through after n turns. */
  predicate Through(left: nat, period: nat, n: nat)
    requires 1 <= left && 1 <= period
    decreases n
  {
    n == left || (n > left && Through(period, period, n - left))
  }

  ghost predicate Meet(p: nat, scans: nat, q: nat, pages: nat)
    requires 1 <= p && 1 <= scans && 1 <= q && 1 <= pages
  {
    exists n: nat :: Through(p, scans, n) && Through(q, pages, n)
  }

  function Gcd(a: nat, b: nat): (g: nat)
    requires a > 0 && b > 0
    ensures g > 0
  {
    if a == b then a else if a > b then Gcd(a - b, b) else Gcd(a, b - a)
  }

  ghost predicate Divides(d: nat, x: int) { exists k: int :: x == Multiple(k, d) }

  function Multiple(k: int, d: int): int { k * d }

  lemma {:induction false} ThroughAfter(left: nat, period: nat, rounds: nat)
    requires 1 <= left && 1 <= period
    ensures left + Multiple(rounds, period) >= left && Through(left, period, left + Multiple(rounds, period))
    decreases rounds
  {
    if rounds > 0 {
      ThroughAfter(period, period, rounds - 1);
      assert Multiple(rounds, period) == period + Multiple(rounds - 1, period);
    }
  }

  lemma {:induction false} ThroughMeans(left: nat, period: nat, n: nat) returns (rounds: nat)
    requires 1 <= left && 1 <= period && Through(left, period, n)
    ensures n == left + Multiple(rounds, period)
    decreases n
  {
    if n == left {
      rounds := 0;
    } else {
      var more := ThroughMeans(period, period, n - left);
      rounds := more + 1;
      assert Multiple(more + 1, period) == period + Multiple(more, period);
    }
  }

  lemma {:induction false} Bezout(a: nat, b: nat) returns (x: int, y: int)
    requires a > 0 && b > 0
    ensures Gcd(a, b) == Multiple(x, a) + Multiple(y, b)
  {
    if a == b {
      x, y := 1, 0;
    } else if a > b {
      x, y := Bezout(a - b, b);
      assert Multiple(x, a - b) + Multiple(y, b) == Multiple(x, a) + Multiple(y - x, b);
      y := y - x;
    } else {
      x, y := Bezout(a, b - a);
      assert Multiple(x, a) + Multiple(y, b - a) == Multiple(x - y, a) + Multiple(y, b);
      x := x - y;
    }
  }

  lemma {:induction false} GcdDivides(a: nat, b: nat) returns (x: nat, y: nat)
    requires a > 0 && b > 0
    ensures a == Multiple(x, Gcd(a, b)) && b == Multiple(y, Gcd(a, b))
  {
    if a == b {
      x, y := 1, 1;
    } else if a > b {
      x, y := GcdDivides(a - b, b);
      x := SumOfMultiples(x, y, Gcd(a, b), a);
    } else {
      x, y := GcdDivides(a, b - a);
      y := SumOfMultiples(x, y, Gcd(a, b), b);
    }
  }

  lemma SumOfMultiples(x: nat, y: nat, d: nat, sum: nat) returns (z: nat)
    requires sum == Multiple(x, d) + Multiple(y, d)
    ensures sum == Multiple(z, d)
  {
    z := x + y;
    assert x * d + y * d == (x + y) * d;
  }

  lemma MultipleOfMultiple(k: int, x: int, d: int)
    ensures Multiple(k, Multiple(x, d)) == Multiple(Multiple(k, x), d)
  {}

  /** Both are through in the same turn at some time, if and only if the divisor divides the difference. */
  lemma GcdDecides(p: nat, scans: nat, q: nat, pages: nat)
    requires 1 <= p && 1 <= scans && 1 <= q && 1 <= pages
    ensures Meet(p, scans, q, pages) <==> Divides(Gcd(scans, pages), p - q)
  {
    if Meet(p, scans, q, pages) {
      var n: nat :| Through(p, scans, n) && Through(q, pages, n);
      var a := ThroughMeans(p, scans, n);
      var b := ThroughMeans(q, pages, n);
      DifferenceDivides(p, scans, q, pages, a, b);
    }
    if Divides(Gcd(scans, pages), p - q) {
      var m: int :| p - q == Multiple(m, Gcd(scans, pages));
      var a, b := Rounds(p, scans, q, pages, m);
      ThroughAfter(p, scans, a);
      ThroughAfter(q, pages, b);
    }
  }

  lemma DifferenceDivides(p: nat, scans: nat, q: nat, pages: nat, a: nat, b: nat)
    requires scans > 0 && pages > 0 && p + Multiple(a, scans) == q + Multiple(b, pages)
    ensures Divides(Gcd(scans, pages), p - q)
  {
    var g := Gcd(scans, pages);
    var x, y := GcdDivides(scans, pages);
    MultipleOfMultiple(a, x, g);
    MultipleOfMultiple(b, y, g);
    Distributes(Multiple(b, y), Multiple(a, x), g);
    assert p - q == Multiple(Multiple(b, y) - Multiple(a, x), g);
  }

  lemma Distributes(x: int, y: int, d: int)
    ensures Multiple(x - y, d) == Multiple(x, d) - Multiple(y, d) && Multiple(x + y, d) == Multiple(x, d) + Multiple(y, d)
  {}

  lemma Rounds(p: nat, scans: nat, q: nat, pages: nat, m: int) returns (a: nat, b: nat)
    requires scans > 0 && pages > 0 && p - q == Multiple(m, Gcd(scans, pages))
    ensures p + Multiple(a, scans) == q + Multiple(b, pages)
  {
    var x, y := Bezout(scans, pages);
    var u, v := -Multiple(m, x), Multiple(m, y);
    assert p + Multiple(u, scans) == q + Multiple(v, pages) by { Scaled(m, x, y, scans, pages, Gcd(scans, pages)); }
    var t := (if u < 0 then -u else u) + (if v < 0 then -v else v);
    AtLeast(t, pages);
    AtLeast(t, scans);
    a, b := u + Multiple(t, pages), v + Multiple(t, scans);
    Distributes(u, Multiple(t, pages), scans);
    Distributes(v, Multiple(t, scans), pages);
    Commutes(t, pages, scans);
  }

  lemma Scaled(m: int, x: int, y: int, scans: nat, pages: nat, g: nat)
    requires g == Multiple(x, scans) + Multiple(y, pages)
    ensures Multiple(m, g) == Multiple(Multiple(m, y), pages) - Multiple(-Multiple(m, x), scans)
  {
    MultipleOfMultiple(m, x, scans);
    MultipleOfMultiple(m, y, pages);
    assert m * (x * scans + y * pages) == m * (x * scans) + m * (y * pages);
    assert -Multiple(m, x) * scans == -(Multiple(m, x) * scans);
  }

  lemma AtLeast(t: nat, d: nat)
    requires d > 0
    ensures Multiple(t, d) >= t
  {}

  lemma Commutes(t: int, a: int, b: int)
    ensures Multiple(Multiple(t, a), b) == Multiple(Multiple(t, b), a)
  {
    assert t * a * b == t * b * a;
  }

  // ---- the chain as two counters -------------------------------------------------------------------------------------

  /** Every turn has room for as many collections. */
  predicate Even(pace: Pace) { pace.period == 1 || pace.small == pace.large }

  /** A scan of one claim leaves the same room every time, so for limits up to three every world is even. */
  lemma SmallLimitsAreEven(s: Snapshot, limit: nat)
    requires 1 <= limit <= 3
    ensures Even(PaceOf(s, limit))
  {
    OneAtATime(|s.expired|);
  }

  /** Following the cursors from this one comes to an end. */
  ghost predicate Ends(s: Snapshot, limit: nat, cursor: Cursor)
    requires limit >= 1
  {
    exists calls | Follows(calls, s, limit, cursor) && |calls| > 0 :: LastNext(calls, s, limit).None?
  }

  /** Scans left in the period, and pages left in the pass. */
  function ScansLeft(pace: Pace, i: nat): nat
    requires i < pace.period
  {
    pace.period - i
  }

  function PagesLeft(pace: Pace, count: nat, l: nat): (r: nat)
    requires pace.Ok() && l <= count
    ensures r >= 1
  {
    Turns(count - l, pace.large)
  }

  /** One turn takes one scan and one page. */
  lemma TurnCounts(pace: Pace, count: nat, i: nat, l: nat)
    requires pace.Ok() && Even(pace) && i < pace.period && l <= count
    ensures i + 1 == pace.period <==> ScansLeft(pace, i) == 1
    ensures count <= l + SizeIn(pace, i) <==> PagesLeft(pace, count, l) == 1
    ensures NextPhase(pace, i) < pace.period
    ensures ScansLeft(pace, NextPhase(pace, i)) == if ScansLeft(pace, i) == 1 then pace.period else ScansLeft(pace, i) - 1
    ensures var next := if count > l + SizeIn(pace, i) then l + SizeIn(pace, i) else 0;
            PagesLeft(pace, count, next)
            == if PagesLeft(pace, count, l) == 1 then PagesLeft(pace, count, 0) else PagesLeft(pace, count, l) - 1
  {}

  /** A counter after one turn. */
  lemma ThroughNext(left: nat, period: nat, n: nat)
    requires 1 <= left && 1 <= period && n > 1
    ensures Through(left, period, n) <==> Through(if left == 1 then period else left - 1, period, n - 1)
  {}

  /** Where a chain may stand. */
  ghost predicate Stands(s: Snapshot, limit: nat, cursor: Cursor, i: nat, l: nat)
    requires limit >= 1
  {
    s.Valid() && AllOrphans(s) && Even(PaceOf(s, limit)) && Represents(s, limit, cursor, i, l)
  }

  lemma StandsWithin(s: Snapshot, limit: nat, cursor: Cursor, i: nat, l: nat)
    requires limit >= 1 && Represents(s, limit, cursor, i, l)
    ensures i < PaceOf(s, limit).period && l <= |s.listing|
  {}

  ghost predicate BothThrough(s: Snapshot, limit: nat, i: nat, l: nat, n: nat)
    requires limit >= 1 && i < PaceOf(s, limit).period && l <= |s.listing|
  {
    var pace, count := PaceOf(s, limit), |s.listing|;
    Through(ScansLeft(pace, i), pace.period, n) && Through(PagesLeft(pace, count, l), PagesLeft(pace, count, 0), n)
  }

  /** Turn by turn, until both are through together. */
  lemma {:induction false} EndsInTurns(s: Snapshot, limit: nat, cursor: Cursor, i: nat, l: nat, n: nat) returns (calls: seq<Call>)
    requires limit >= 1 && Stands(s, limit, cursor, i, l) && i < PaceOf(s, limit).period && l <= |s.listing|
    requires BothThrough(s, limit, i, l, n)
    ensures Follows(calls, s, limit, cursor) && LastNext(calls, s, limit).None?
    decreases n
  {
    hide Represents, Reconcile, Follows, LastNext, Through, PagesLeft, ScansLeft, Turns;
    calls := Turn(s, limit, cursor, i, l);
    NotEmpty(calls, s, limit, cursor);
    var next := LastNext(calls, s, limit);
    if next.Some? {
      var i', l', n' := Next(s, limit, cursor, i, l, n);
      var rest := EndsInTurns(s, limit, next.value, i', l', n');
      FollowsJoins(calls, rest, s, limit, cursor);
      calls := calls + rest;
    }
  }

  /** Where the next turn stands, when this one is not the last. */
  lemma Next(s: Snapshot, limit: nat, cursor: Cursor, i: nat, l: nat, n: nat) returns (i': nat, l': nat, n': nat)
    requires limit >= 1 && Stands(s, limit, cursor, i, l) && i < PaceOf(s, limit).period && l <= |s.listing|
    requires BothThrough(s, limit, i, l, n)
    requires !(i + 1 == PaceOf(s, limit).period && |s.listing| <= l + SizeIn(PaceOf(s, limit), i))
    ensures i' == NextPhase(PaceOf(s, limit), i) < PaceOf(s, limit).period
    ensures l' == ListedNext(s, l, SizeIn(PaceOf(s, limit), i)) <= |s.listing|
    ensures n == n' + 1 && BothThrough(s, limit, i', l', n')
  {
    hide Represents, Turns;
    var pace, count := PaceOf(s, limit), |s.listing|;
    TurnCounts(pace, count, i, l);
    i', l' := NextPhase(pace, i), ListedNext(s, l, SizeIn(pace, i));
    FirstTurn(ScansLeft(pace, i), pace.period, n);
    FirstTurn(PagesLeft(pace, count, l), PagesLeft(pace, count, 0), n);
    n' := n - 1;
    if n == 1 {
      assert false;
    }
    ThroughNext(ScansLeft(pace, i), pace.period, n);
    ThroughNext(PagesLeft(pace, count, l), PagesLeft(pace, count, 0), n);
  }

  lemma FirstTurn(left: nat, period: nat, n: nat)
    requires 1 <= left && 1 <= period && Through(left, period, n)
    ensures n >= 1 && (n == 1 ==> left == 1)
  {}

  /** The other way round: a chain that has ended tells the turn. */
  lemma {:induction false} TurnsOf(s: Snapshot, limit: nat, cursor: Cursor, i: nat, l: nat, calls: seq<Call>) returns (n: nat)
    requires limit >= 1 && Stands(s, limit, cursor, i, l) && i < PaceOf(s, limit).period && l <= |s.listing|
    requires Follows(calls, s, limit, cursor) && |calls| > 0 && LastNext(calls, s, limit).None?
    ensures BothThrough(s, limit, i, l, n)
    decreases |calls|
  {
    hide Represents, Reconcile, Follows, LastNext, Through, PagesLeft, ScansLeft, Turns;
    var pace, count := PaceOf(s, limit), |s.listing|;
    var first := Turn(s, limit, cursor, i, l);
    NotEmpty(first, s, limit, cursor);
    TurnCounts(pace, count, i, l);
    if LastNext(first, s, limit).None? {
      n := 1;
      OneLeft(pace.period);
      OneLeft(PagesLeft(pace, count, 0));
    } else {
      SplitsAfter(first, calls, s, limit, cursor);
      var more := TurnsOf(s, limit, LastNext(first, s, limit).value, NextPhase(pace, i), ListedNext(s, l, SizeIn(pace, i)),
                          calls[|first|..]);
      n := more + 1;
      FirstTurn(ScansLeft(pace, NextPhase(pace, i)), pace.period, more);
      ThroughNext(ScansLeft(pace, i), pace.period, n);
      ThroughNext(PagesLeft(pace, count, l), PagesLeft(pace, count, 0), n);
    }
  }

  lemma OneLeft(period: nat)
    requires 1 <= period
    ensures Through(1, period, 1)
  {}

  lemma {:induction false} SameSteps(a: seq<Call>, b: seq<Call>, s: Snapshot, limit: nat, from: Cursor, k: nat)
    requires limit >= 1 && Follows(a, s, limit, from) && Follows(b, s, limit, from) && k < |a| && k < |b|
    ensures a[k] == b[k]
  {
    hide Reconcile;
    if k > 0 {
      SameSteps(a, b, s, limit, from, k - 1);
    }
  }

  lemma GoesOn(calls: seq<Call>, n: nat, s: Snapshot, limit: nat, from: Cursor)
    requires limit >= 1 && Follows(calls, s, limit, from) && LastNext(calls, s, limit).Some? && 0 < n <= |calls|
    ensures Reconcile(s, limit, calls[n-1].cursor).next.Some?
  {
    hide Reconcile;
    if n < |calls| {
      assert Reconcile(s, limit, calls[n-1].cursor).next == Some(calls[n].cursor);
    }
  }

  /** A chain that has ended goes on where the first turn has left off. */
  lemma SplitsAfter(first: seq<Call>, calls: seq<Call>, s: Snapshot, limit: nat, from: Cursor)
    requires limit >= 1 && Follows(first, s, limit, from) && LastNext(first, s, limit).Some?
    requires Follows(calls, s, limit, from) && LastNext(calls, s, limit).None?
    ensures 0 < |first| < |calls| && Follows(calls[|first|..], s, limit, LastNext(first, s, limit).value)
    ensures LastNext(calls[|first|..], s, limit).None?
  {
    hide Reconcile;
    var m, n := |first|, |calls|;
    if n <= m {
      GoesOn(first, n, s, limit, from);
      SameSteps(first, calls, s, limit, from, n - 1);
      assert false;
    }
    SameSteps(first, calls, s, limit, from, m - 1);
    var rest := calls[m..];
    assert Reconcile(s, limit, calls[m-1].cursor).next == Some(calls[m].cursor);
    forall k | 0 < k < |rest| ensures Reconcile(s, limit, rest[k-1].cursor).next == Some(rest[k].cursor) {
      assert rest[k-1] == calls[m+k-1] && rest[k] == calls[m+k];
    }
  }

  /**
   In a world that does not change and whose expired claims all name orphans, with pages of one size: from a
   cursor that has some scans left in its period and some pages left in its pass, following the cursors ends
   if and only if the greatest common divisor of the lengths of period and pass divides their difference.
   */
  lemma EndsExactly(s: Snapshot, limit: nat, cursor: Cursor, i: nat, l: nat)
    requires limit >= 1 && Stands(s, limit, cursor, i, l)
    ensures var pace, count := PaceOf(s, limit), |s.listing|;
            && i < pace.period && l <= count
            && (Ends(s, limit, cursor) <==>
                  Divides(Gcd(pace.period, PagesLeft(pace, count, 0)), ScansLeft(pace, i) - PagesLeft(pace, count, l)))
  {
    StandsWithin(s, limit, cursor, i, l);
    hide Represents, Reconcile, Follows, LastNext, Through, PagesLeft, ScansLeft, Turns, Divides, Stands, Gcd, PaceOf;
    var pace, count := PaceOf(s, limit), |s.listing|;
    ScansAreLeft(pace, i);
    GcdDecides(ScansLeft(pace, i), pace.period, PagesLeft(pace, count, l), PagesLeft(pace, count, 0));
    if Meet(ScansLeft(pace, i), pace.period, PagesLeft(pace, count, l), PagesLeft(pace, count, 0)) {
      var n: nat :|
        Through(ScansLeft(pace, i), pace.period, n) && Through(PagesLeft(pace, count, l), PagesLeft(pace, count, 0), n);
      var calls := EndsInTurns(s, limit, cursor, i, l, n);
      NotEmpty(calls, s, limit, cursor);
    }
    if Ends(s, limit, cursor) {
      var calls :| Follows(calls, s, limit, cursor) && |calls| > 0 && LastNext(calls, s, limit).None?;
      var n := TurnsOf(s, limit, cursor, i, l, calls);
    }
  }

  lemma ScansAreLeft(pace: Pace, i: nat)
    requires i < pace.period
    ensures 1 <= ScansLeft(pace, i) <= pace.period
  {}

  // ---- a cursor that never ends ---------------------------------------------------------------------------------------

  /** Two expired claims, both of orphans, and so many collections. */
  function TwoClaims(listed: nat): Snapshot {
    Snapshot([Position(0, 0), Position(1, 1)],
             if listed == 1 then [Listed(0, true, 0)] else [Listed(0, true, 0), Listed(1, true, 0)], {0, 1}, 1)
  }

  /** The first claim is behind the cursor, and the listing starts again. */
  const OFFBEAT := Cursor(None, Some(Position(0, 0)), false, false)

  /**
   With a limit of two, one collection is listed when the first call asks, and a second one has appeared when the next
   does. From then on nothing changes, every claim names an orphan, and two cursors lead to each other for ever:
   one scan is left when two pages are, and both take two turns.
   */
  lemma OffbeatLoops()
    ensures TwoClaims(1).Valid() && TwoClaims(2).Valid() && AllOrphans(TwoClaims(1)) && AllOrphans(TwoClaims(2))
    ensures Reconcile(TwoClaims(1), 2, START).next == Some(OFFBEAT)
    ensures var other := Cursor(Some(0), Some(Position(1, 1)), true, false);
            Reconcile(TwoClaims(2), 2, OFFBEAT).next == Some(other) && Reconcile(TwoClaims(2), 2, other).next == Some(OFFBEAT)
  {
    var other := Cursor(Some(0), Some(Position(1, 1)), true, false);
    ScansFirst(1, START);
    ScansFirst(2, other);
    ScansSecond(2);
    hide Scanned, EligibleNames, RowsAfter, ExhaustedAfter, PositionAfter, WithPage;
    assert ListedAfter(TwoClaims(2).listing, Some(0)) == TwoClaims(2).listing[1..];
  }

  lemma ScansFirst(listed: nat, cursor: Cursor)
    requires cursor.exhausted || cursor.expiredAfter.None?
    ensures var s := TwoClaims(listed);
            && Scanned(s, 2, cursor) == [s.expired[0]] && EligibleNames(Scanned(s, 2, cursor), s.orphans) == [0]
            && !ExhaustedAfter(s, 2, cursor) && PositionAfter(s, 2, cursor) == Some(s.expired[0])
  {
    var s := TwoClaims(listed);
    assert RowsAfter(s.expired, ScanFrom(2, cursor)) == s.expired && s.expired[..1] == [s.expired[0]];
    assert [s.expired[0]][..0] == [];
  }

  lemma ScansSecond(listed: nat)
    ensures var s := TwoClaims(listed);
            && Scanned(s, 2, OFFBEAT) == [s.expired[1]] && EligibleNames(Scanned(s, 2, OFFBEAT), s.orphans) == [1]
            && ExhaustedAfter(s, 2, OFFBEAT) && PositionAfter(s, 2, OFFBEAT) == Some(s.expired[1])
  {
    var s := TwoClaims(listed);
    assert s.expired[1..] == [s.expired[1]];
    assert [s.expired[1]][..0] == [];
  }
}
