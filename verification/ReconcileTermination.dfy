/**
 Why following the cursors of `reconcile_orphan_collections` comes to an end. The expired scan repeats
 with a fixed period, and the room it leaves for the listing is the same in every call of a period but
 the last, which has at least as much. Passes over the listing therefore never start twice at the same
 point of the period, so one of them ends together with the scan.
 */
module ReconcileTermination {
  import opened Prelude
  import opened OrphanReconcile

  // ---- passes over the listing ------------------------------------------------------------------------------------

  /** Page sizes by turn: `large` in the last turn of every period, `small` in the others. */
  datatype Pace = Pace(period: nat, small: nat, large: nat)
  {
    predicate Ok() { period > 0 && 1 <= small <= large }
  }

  function NextPhase(pace: Pace, phase: nat): nat { if phase + 1 >= pace.period then 0 else phase + 1 }

  /** Where in its period turn k lies. */
  function Phase(pace: Pace, k: nat): (r: nat)
    requires pace.Ok()
    ensures r < pace.period
  {
    if k == 0 then 0 else NextPhase(pace, Phase(pace, k - 1))
  }

  function SizeIn(pace: Pace, phase: nat): nat { if phase + 1 == pace.period then pace.large else pace.small }

  /** The sizes of all turns before k, added up. */
  function Total(pace: Pace, k: nat): nat
    requires pace.Ok()
  {
    if k == 0 then 0 else Total(pace, k - 1) + SizeIn(pace, Phase(pace, k - 1))
  }

  /** A pass starts in turn `from` and wraps around in turn `to - 1`, which is not the last of its period. */
  predicate Pass(pace: Pace, count: nat, from: nat, to: nat)
    requires pace.Ok()
  {
    && from < to && Phase(pace, to) != 0
    && Total(pace, to) - Total(pace, from) >= count
    && (from < to - 1 ==> Total(pace, to - 1) - Total(pace, from) < count)
  }

  lemma {:induction false} TotalGrows(pace: Pace, a: nat, b: nat)
    requires pace.Ok() && a <= b
    ensures Total(pace, a) <= Total(pace, b)
    decreases b - a
  {
    if a < b {
      TotalGrows(pace, a, b - 1);
    }
  }

  /** Turns of one phase look alike backwards. */
  lemma {:induction false} SameBack(pace: Pace, a: nat, b: nat, t: nat)
    requires pace.Ok() && Phase(pace, a) == Phase(pace, b) && t <= a <= b
    ensures Phase(pace, a - t) == Phase(pace, b - t)
    ensures Total(pace, a) - Total(pace, a - t) == Total(pace, b) - Total(pace, b - t)
  {
    if t > 0 {
      SameBack(pace, a, b, t - 1);
      StepBack(pace, a - t, b - t);
    }
  }

  lemma StepBack(pace: Pace, a: nat, b: nat)
    requires pace.Ok() && Phase(pace, a + 1) == Phase(pace, b + 1)
    ensures Phase(pace, a) == Phase(pace, b)
    ensures Total(pace, a + 1) - Total(pace, a) == Total(pace, b + 1) - Total(pace, b)
  {}

  /** A pass is the shortest stretch to its end: from a later start the listing would not have been covered. */
  lemma NoLaterStart(pace: Pace, count: nat, from: nat, to: nat, later: nat)
    requires pace.Ok() && Pass(pace, count, from, to) && from < later < to
    ensures Total(pace, to) - Total(pace, later) < count
  {
    assert Total(pace, to) == Total(pace, to - 1) + pace.small;
    TotalGrows(pace, from, later - 1);
    assert Total(pace, later) >= Total(pace, later - 1) + pace.small;
  }

  /** Between two passes that end at the same point of the period, the later one did not start earlier. */
  lemma NotLonger(pace: Pace, count: nat, from: nat, to: nat, from': nat, to': nat)
    requires pace.Ok() && Pass(pace, count, from, to) && Pass(pace, count, from', to')
    requires to < to' && Phase(pace, to) == Phase(pace, to')
    ensures to' - from' <= to - from
  {
    hide Total, Phase;
    if to' - from' > to - from {
      SameBack(pace, to, to', to - from);
      NoLaterStart(pace, count, from', to', to' - (to - from));
      assert false;
    }
  }

  lemma NotShorter(pace: Pace, count: nat, from: nat, to: nat, from': nat, to': nat)
    requires pace.Ok() && Pass(pace, count, from, to) && Pass(pace, count, from', to')
    requires to < to' && Phase(pace, to) == Phase(pace, to')
    ensures to' - from' >= to - from
  {
    hide Total, Phase;
    if to' - from' < to - from {
      SameBack(pace, to, to', to' - from');
      NoLaterStart(pace, count, from, to, to - (to' - from'));
      assert false;
    }
  }

  /** Passes that end at the same point of the period have started at the same point. */
  lemma SamePass(pace: Pace, count: nat, from: nat, to: nat, from': nat, to': nat)
    requires pace.Ok() && Pass(pace, count, from, to) && Pass(pace, count, from', to')
    requires to < to' && Phase(pace, to) == Phase(pace, to')
    ensures Phase(pace, from) == Phase(pace, from')
  {
    hide Total, Phase, Pass;
    NotLonger(pace, count, from, to, from', to');
    NotShorter(pace, count, from, to, from', to');
    PassLength(pace, count, from, to);
    SameBack(pace, to, to', to - from);
  }

  lemma PassLength(pace: Pace, count: nat, from: nat, to: nat)
    requires pace.Ok() && Pass(pace, count, from, to)
    ensures from < to
  {}

  /** The starts of the passes so far. */
  ghost predicate Passes(pace: Pace, count: nat, starts: seq<nat>)
    requires pace.Ok()
  {
    && |starts| > 0 && starts[0] == 0
    && forall i, j | 0 <= i && j == i + 1 < |starts| :: Pass(pace, count, starts[i], starts[j])
  }

  lemma {:induction false} StartsAscend(pace: Pace, count: nat, starts: seq<nat>, i: nat, j: nat)
    requires pace.Ok() && Passes(pace, count, starts) && i < j < |starts|
    ensures starts[i] < starts[j]
    decreases j
  {
    assert Pass(pace, count, starts[j-1], starts[j]);
    if i < j - 1 {
      StartsAscend(pace, count, starts, i, j - 1);
    }
  }

  /** No two passes start at the same point of the period. */
  lemma {:induction false} StartsApart(pace: Pace, count: nat, starts: seq<nat>, i: nat, j: nat)
    requires pace.Ok() && Passes(pace, count, starts) && i < j < |starts|
    ensures Phase(pace, starts[i]) != Phase(pace, starts[j])
    decreases i
  {
    assert Pass(pace, count, starts[j-1], starts[j]);
    if i > 0 && Phase(pace, starts[i]) == Phase(pace, starts[j]) {
      assert Pass(pace, count, starts[i-1], starts[i]);
      StartsAscend(pace, count, starts, i, j);
      SamePass(pace, count, starts[i-1], starts[i], starts[j-1], starts[j]);
      StartsApart(pace, count, starts, i - 1, j - 1);
      assert false;
    }
  }

  lemma SomeBelow(numbers: seq<nat>, n: nat)
    requires numbers != [] && forall i | 0 <= i < |numbers| :: numbers[i] < n
    ensures n > 0
  {
    assert numbers[0] < n;
  }

  /** Distinct numbers below n are at most n. */
  lemma {:induction false} Pigeonhole(numbers: seq<nat>, n: nat)
    requires forall i | 0 <= i < |numbers| :: numbers[i] < n
    requires forall i, j | 0 <= i < j < |numbers| :: numbers[i] != numbers[j]
    ensures |numbers| <= n
  {
    if n == 0 {
      if numbers != [] {
        SomeBelow(numbers, n);
        assert false;
      }
    } else if exists i :: 0 <= i < |numbers| && numbers[i] == n - 1 {
      var i :| 0 <= i < |numbers| && numbers[i] == n - 1;
      var others := numbers[..i] + numbers[i+1..];
      forall k | 0 <= k < |others| ensures others[k] < n - 1 {
        assert others[k] == numbers[if k < i then k else k + 1];
      }
      forall j, k | 0 <= j < k < |others| ensures others[j] != others[k] {
        assert others[j] == numbers[if j < i then j else j + 1] && others[k] == numbers[if k < i then k else k + 1];
      }
      Pigeonhole(others, n - 1);
    } else {
      Pigeonhole(numbers, n - 1);
    }
  }

  function PhasesOf(pace: Pace, starts: seq<nat>): (r: seq<nat>)
    requires pace.Ok()
    ensures |r| == |starts| && forall i | 0 <= i < |starts| :: r[i] == Phase(pace, starts[i])
  {
    if starts == [] then [] else PhasesOf(pace, starts[..|starts|-1]) + [Phase(pace, starts[|starts|-1])]
  }

  /** There are no more passes than turns in a period. */
  lemma FewPasses(pace: Pace, count: nat, starts: seq<nat>)
    requires pace.Ok() && Passes(pace, count, starts)
    ensures |starts| <= pace.period
  {
    var phases := PhasesOf(pace, starts);
    forall i, j | 0 <= i < j < |phases| ensures phases[i] != phases[j] {
      StartsApart(pace, count, starts, i, j);
    }
    Pigeonhole(phases, pace.period);
  }

  // ---- the scan of an unchanged world ---------------------------------------------------------------------------

  /** How many scans of `width` claims a period takes. */
  function Turns(claims: nat, width: nat): (r: nat)
    requires width > 0
    ensures r > 0
  {
    if claims <= width then 1 else 1 + Turns(claims - width, width)
  }

  /** The width of the last scan of a period. */
  function LastWidth(claims: nat, width: nat): (r: nat)
    requires width > 0
    ensures r <= width
  {
    if claims <= width then claims else LastWidth(claims - width, width)
  }

  function Width(limit: nat): (r: nat)
    requires limit >= 1
    ensures 1 <= r && (limit > 1 ==> r < limit)
  {
    ScanBudget(limit, false)
  }

  /** The paces of the chain. A call of limit one either scans a claim or lists a collection, so two calls make a turn. */
  function PaceOf(s: Snapshot, limit: nat): (r: Pace)
    requires limit >= 1
    ensures r.Ok()
  {
    var claims, width := |s.expired|, Width(limit);
    if limit == 1 then Pace(Turns(claims, width), 1, 1)
    else Pace(Turns(claims, width), limit - width, limit - LastWidth(claims, width))
  }

  /** How many claims the first i scans of a period take. */
  function Behind(i: nat, width: nat): nat { if i == 0 then 0 else Behind(i - 1, width) + width }

  lemma {:induction false} TurnsCover(claims: nat, width: nat, i: nat)
    requires width > 0 && i < Turns(claims, width)
    ensures Behind(i, width) <= claims
    ensures i > 0 ==> Behind(i, width) < claims
    ensures i + 1 == Turns(claims, width) ==> claims - Behind(i, width) == LastWidth(claims, width)
    ensures i + 1 < Turns(claims, width) ==> claims - Behind(i, width) > width
  {
    if i > 0 {
      TurnsCover(claims - width, width, i - 1);
      assert Behind(i, width) == Behind(i - 1, width) + width;
    }
  }

  predicate AllOrphans(s: Snapshot) { forall i | 0 <= i < |s.expired| :: s.expired[i].name in s.orphans }

  /** The cursor of phase i with l collections of the current pass listed. */
  predicate Represents(s: Snapshot, limit: nat, cursor: Cursor, i: nat, l: nat)
    requires limit >= 1
  {
    && !cursor.qdrantTurn && i < Turns(|s.expired|, Width(limit))
    && (if l == 0 then cursor.qdrant == None else l < |s.listing| && cursor.qdrant == Some(s.listing[l-1].name))
    && (if i == 0 then cursor.exhausted || cursor.expiredAfter == None
        else !cursor.exhausted && Behind(i, Width(limit)) <= |s.expired| && cursor.expiredAfter == PositionAt(s, Behind(i, Width(limit))))
  }

  function PositionAt(s: Snapshot, n: nat): Option<Position>
    requires n <= |s.expired|
  {
    if n == 0 then None else Some(s.expired[n-1])
  }

  lemma {:induction false} RowsAfterIndex(rows: seq<Position>, n: nat)
    requires 0 < n <= |rows| && forall i, j | 0 <= i < j < |rows| :: Before(rows[i], rows[j])
    ensures RowsAfter(rows, Some(rows[n-1])) == rows[n..]
  {
    if n > 1 {
      assert Before(rows[0], rows[n-1]);
      RowsAfterIndex(rows[1..], n - 1);
    } else if |rows| > 1 {
      assert Before(rows[0], rows[1]);
    }
  }

  lemma {:induction false} ListedAfterIndex(rows: seq<Listed>, n: nat)
    requires 0 < n <= |rows| && forall i, j | 0 <= i < j < |rows| :: rows[i].name < rows[j].name
    ensures ListedAfter(rows, Some(rows[n-1].name)) == rows[n..]
  {
    if n > 1 {
      ListedAfterIndex(rows[1..], n - 1);
    }
  }

  lemma {:induction false} AllEligible(scanned: seq<Position>, orphans: set<nat>)
    requires forall i | 0 <= i < |scanned| :: scanned[i].name in orphans
    ensures |EligibleNames(scanned, orphans)| == |scanned|
  {
    if scanned != [] {
      AllEligible(scanned[..|scanned|-1], orphans);
    }
  }

  /** What the scan of phase i sees and leaves. */
  lemma ScanAt(s: Snapshot, limit: nat, cursor: Cursor, i: nat, l: nat)
    requires limit >= 1 && s.Valid() && AllOrphans(s) && Represents(s, limit, cursor, i, l)
    ensures var width, last := Width(limit), i + 1 == Turns(|s.expired|, Width(limit));
            && |EligibleNames(Scanned(s, limit, cursor), s.orphans)| == (if last then LastWidth(|s.expired|, width) else width)
            && (ExhaustedAfter(s, limit, cursor) <==> last)
            && (!last ==> Behind(i, width) + width <= |s.expired|
                          && PositionAfter(s, limit, cursor) == PositionAt(s, Behind(i, width) + width))
  {
    var width, from, rows := Width(limit), Behind(i, Width(limit)), RowsAfter(s.expired, ScanFrom(limit, cursor));
    TurnsCover(|s.expired|, width, i);
    assert rows == s.expired[from..] by {
      if i > 0 {
        RowsAfterIndex(s.expired, from);
      } else {
        assert from == 0;
      }
    }
    var scanned := Scanned(s, limit, cursor);
    assert |scanned| == if |rows| <= width then |rows| else width;
    forall k | 0 <= k < |scanned| ensures scanned[k] == s.expired[from + k] {}
    AllEligible(scanned, s.orphans);
  }

  function ListedNext(s: Snapshot, l: nat, size: nat): nat {
    if |s.listing| > l + size then l + size else 0
  }

  /** The page at l: it wraps around unless more than `size` collections are left. */
  lemma PageAt(s: Snapshot, cursor: Cursor, l: nat, size: nat)
    requires s.Valid() && size > 0
    requires if l == 0 then cursor.qdrant == None else l < |s.listing| && cursor.qdrant == Some(s.listing[l-1].name)
    ensures PageNext(ListedAfter(s.listing, cursor.qdrant), size)
            == if |s.listing| > l + size then Some(s.listing[l + size - 1].name) else None
  {
    if l > 0 {
      ListedAfterIndex(s.listing, l);
    }
    assert ListedAfter(s.listing, cursor.qdrant) == s.listing[l..];
  }

  // ---- one turn -----------------------------------------------------------------------------------------------------

  /** Calls on the same world, each with the cursor the one before returned, the first with `from`. */
  ghost predicate Follows(calls: seq<Call>, s: Snapshot, limit: nat, from: Cursor)
    requires limit >= 1
  {
    && |calls| > 0 && calls[0].cursor == from
    && (forall i | 0 <= i < |calls| :: calls[i].snapshot == s && calls[i].limit == limit)
    && (forall i | 0 < i < |calls| :: Reconcile(s, limit, calls[i-1].cursor).next == Some(calls[i].cursor))
  }

  function LastNext(calls: seq<Call>, s: Snapshot, limit: nat): Option<Cursor>
    requires limit >= 1 && calls != []
  {
    Reconcile(s, limit, calls[|calls|-1].cursor).next
  }

  /** A turn ends the chain exactly in the last phase of the scan and on the last page; otherwise it leads to the next phase. */
  ghost predicate Turned(s: Snapshot, limit: nat, i: nat, l: nat, next: Option<Cursor>)
    requires limit >= 1
  {
    var pace := PaceOf(s, limit);
    var size := SizeIn(pace, i);
    && (next.None? <==> i + 1 == pace.period && |s.listing| <= l + size)
    && (next.Some? ==> Represents(s, limit, next.value, NextPhase(pace, i), ListedNext(s, l, size)))
  }

  /** Limits above one, or no claims: one call. */
  lemma SingleTurn(s: Snapshot, limit: nat, cursor: Cursor, i: nat, l: nat)
    requires limit >= 1 && s.Valid() && AllOrphans(s) && Represents(s, limit, cursor, i, l)
    requires limit > 1 || s.expired == []
    ensures Turned(s, limit, i, l, Reconcile(s, limit, cursor).next)
  {
    var pace := PaceOf(s, limit);
    var size := SizeIn(pace, i);
    ScanAt(s, limit, cursor, i, l);
    assert PageBudget(s, limit, cursor) == size;
    PageAt(s, cursor, l, size);
    hide Scanned, ExhaustedAfter, PositionAfter, EligibleNames, RowsAfter, ListedAfter, PageNext, WithPage;
  }

  /** Limit one with claims: the first call scans, the second lists. */
  lemma DoubleTurn(s: Snapshot, cursor: Cursor, i: nat, l: nat)
    requires s.Valid() && AllOrphans(s) && Represents(s, 1, cursor, i, l) && s.expired != []
    ensures var middle := Reconcile(s, 1, cursor).next;
            middle.Some? && Turned(s, 1, i, l, Reconcile(s, 1, middle.value).next)
  {
    ScanAt(s, 1, cursor, i, l);
    OneAtATime(|s.expired|);
    var middle := Reconcile(s, 1, cursor).next;
    assert middle == Some(Cursor(cursor.qdrant, PositionAfter(s, 1, cursor), ExhaustedAfter(s, 1, cursor), true));
    ListOnly(s, middle.value, l);
    hide Scanned, ExhaustedAfter, PositionAfter, EligibleNames, RowsAfter, ListedAfter, PageNext, WithPage, Reconcile;
  }

  lemma {:induction false} OneAtATime(claims: nat)
    ensures claims > 0 ==> LastWidth(claims, 1) == 1
  {
    if claims > 1 {
      OneAtATime(claims - 1);
    }
  }

  lemma ListOnly(s: Snapshot, cursor: Cursor, l: nat)
    requires s.Valid() && cursor.qdrantTurn
    requires if l == 0 then cursor.qdrant == None else l < |s.listing| && cursor.qdrant == Some(s.listing[l-1].name)
    ensures var more := |s.listing| > l + 1;
            Reconcile(s, 1, cursor).next ==
              if more || !cursor.exhausted
              then Some(Cursor(if more then Some(s.listing[l].name) else None, cursor.expiredAfter, cursor.exhausted, false))
              else None
  {
    assert Scanned(s, 1, cursor) == [];
    PageAt(s, cursor, l, 1);
  }

  lemma Turn(s: Snapshot, limit: nat, cursor: Cursor, i: nat, l: nat) returns (calls: seq<Call>)
    requires limit >= 1 && s.Valid() && AllOrphans(s) && Represents(s, limit, cursor, i, l)
    ensures Follows(calls, s, limit, cursor) && Turned(s, limit, i, l, LastNext(calls, s, limit))
  {
    hide Reconcile, Turned, Represents;
    if limit > 1 || s.expired == [] {
      SingleTurn(s, limit, cursor, i, l);
      calls := [Call(s, limit, cursor)];
    } else {
      DoubleTurn(s, cursor, i, l);
      calls := [Call(s, 1, cursor), Call(s, 1, Reconcile(s, 1, cursor).next.value)];
    }
  }

  // ---- the whole chain ------------------------------------------------------------------------------------------------

  lemma FollowsJoins(a: seq<Call>, b: seq<Call>, s: Snapshot, limit: nat, from: Cursor)
    requires limit >= 1 && Follows(a, s, limit, from) && LastNext(a, s, limit).Some?
    requires Follows(b, s, limit, LastNext(a, s, limit).value)
    ensures Follows(a + b, s, limit, from) && LastNext(a + b, s, limit) == LastNext(b, s, limit)
  {
    hide Reconcile;
    var calls := a + b;
    forall i | 0 < i < |calls| ensures Reconcile(s, limit, calls[i-1].cursor).next == Some(calls[i].cursor) {
      if i < |a| {
        assert calls[i] == a[i] && calls[i-1] == a[i-1];
      } else if i > |a| {
        assert calls[i] == b[i - |a|] && calls[i-1] == b[i - |a| - 1];
      }
    }
  }

  /** From turn k, with the passes so far and l collections of the current one listed, the chain can be followed to its end. */
  lemma {:induction false} ToTheEnd(s: Snapshot, limit: nat, cursor: Cursor, k: nat, l: nat, starts: seq<nat>)
    returns (calls: seq<Call>)
    requires limit >= 1 && s.Valid() && AllOrphans(s)
    requires Represents(s, limit, cursor, Phase(PaceOf(s, limit), k), l)
    requires Passes(PaceOf(s, limit), |s.listing|, starts)
    requires var start := starts[|starts|-1];
             start <= k && l == Total(PaceOf(s, limit), k) - Total(PaceOf(s, limit), start) && (start < k ==> l < |s.listing|)
    ensures Follows(calls, s, limit, cursor) && LastNext(calls, s, limit).None?
    decreases PaceOf(s, limit).period - |starts|, |s.listing| - l
  {
    hide Represents, Reconcile, Turns, LastWidth, Follows, LastNext;
    var pace, count := PaceOf(s, limit), |s.listing|;
    var size := SizeIn(pace, Phase(pace, k));
    FewPasses(pace, count, starts);
    calls := Turn(s, limit, cursor, Phase(pace, k), l);
    NotEmpty(calls, s, limit, cursor);
    var next := LastNext(calls, s, limit);
    if next.Some? {
      var rest;
      if count > l + size {
        rest := ToTheEnd(s, limit, next.value, k + 1, l + size, starts);
      } else {
        var more := starts + [k + 1];
        assert Pass(pace, count, starts[|starts|-1], k + 1);
        AddPass(pace, count, starts, k + 1);
        FewPasses(pace, count, more);
        rest := ToTheEnd(s, limit, next.value, k + 1, 0, more);
      }
      FollowsJoins(calls, rest, s, limit, cursor);
      calls := calls + rest;
    }
  }

  lemma NotEmpty(calls: seq<Call>, s: Snapshot, limit: nat, from: Cursor)
    requires limit >= 1 && Follows(calls, s, limit, from)
    ensures calls != []
  {}

  lemma AddPass(pace: Pace, count: nat, starts: seq<nat>, to: nat)
    requires pace.Ok() && Passes(pace, count, starts) && Pass(pace, count, starts[|starts|-1], to)
    ensures Passes(pace, count, starts + [to])
  {
    hide Pass;
    var more := starts + [to];
    forall i, j | 0 <= i && j == i + 1 < |more| ensures Pass(pace, count, more[i], more[j]) {
      if j < |starts| {
        assert Pass(pace, count, starts[i], starts[j]);
      }
    }
  }

  /** A chain in a world that does not change. */
  ghost predicate Unchanged(calls: seq<Call>, s: Snapshot, limit: nat) {
    Chain(calls) && forall i | 0 <= i < |calls| :: calls[i].snapshot == s && calls[i].limit == limit
  }

  /**
   Termination. In a world that does not change and whose expired claims all name orphans, following the
   cursors ends, for every limit from 1 to 100: there is a finished chain, and every other chain on that
   world is a beginning of it.
   */
  lemma ReconcileEnds(s: Snapshot, limit: nat) returns (calls: seq<Call>)
    requires s.Valid() && AllOrphans(s) && 1 <= limit <= 100
    ensures Unchanged(calls, s, limit) && ResultOf(calls[|calls|-1]).next.None?
    ensures forall other | Unchanged(other, s, limit) :: |other| <= |calls| && other == calls[..|other|]
  {
    calls := ToTheEnd(s, limit, START, 0, 0, [0]);
    FinishedChain(calls, s, limit);
    hide Reconcile, Unchanged, ResultOf, Follows, LastNext;
    forall other | Unchanged(other, s, limit) ensures |other| <= |calls| && other == calls[..|other|] {
      BeginningOf(calls, other, s, limit);
    }
  }

  lemma FinishedChain(calls: seq<Call>, s: Snapshot, limit: nat)
    requires s.Valid() && 1 <= limit <= 100 && Follows(calls, s, limit, START) && LastNext(calls, s, limit).None?
    ensures Unchanged(calls, s, limit) && ResultOf(calls[|calls|-1]).next.None?
  {
    hide Reconcile;
  }

  lemma {:induction false} SameCall(calls: seq<Call>, other: seq<Call>, s: Snapshot, limit: nat, i: nat)
    requires Unchanged(calls, s, limit) && Unchanged(other, s, limit) && i < |calls| && i < |other|
    ensures calls[i] == other[i]
  {
    hide Reconcile;
    if i > 0 {
      SameCall(calls, other, s, limit, i - 1);
    }
  }

  lemma NextCall(calls: seq<Call>, n: nat)
    requires Chain(calls) && 0 < n < |calls|
    ensures ResultOf(calls[n-1]).next.Some?
  {
    hide Reconcile;
    assert ResultOf(calls[n-1]).next == Some(calls[n].cursor);
  }

  lemma BeginningOf(calls: seq<Call>, other: seq<Call>, s: Snapshot, limit: nat)
    requires Unchanged(calls, s, limit) && Unchanged(other, s, limit) && ResultOf(calls[|calls|-1]).next.None?
    ensures |other| <= |calls| && other == calls[..|other|]
  {
    hide Reconcile;
    var n := |calls|;
    if |other| > n {
      SameCall(calls, other, s, limit, n - 1);
      NextCall(other, n);
      assert false;
    }
    forall i | 0 <= i < |other| ensures other[i] == calls[..|other|][i] {
      SameCall(calls, other, s, limit, i);
    }
  }

  /** So every old managed orphan and every expired claim of that world is taken as a candidate by some call of the chain. */
  lemma NothingIsLeftBehind(s: Snapshot, limit: nat) returns (calls: seq<Call>)
    requires s.Valid() && AllOrphans(s) && 1 <= limit <= 100
    ensures Unchanged(calls, s, limit)
    ensures forall x | x in s.listing && x.managed && x.created < s.cutoff && x.name in s.orphans :: Taken(calls, x.name)
    ensures forall p | p in s.expired :: Taken(calls, p.name)
  {
    calls := ReconcileEnds(s, limit);
    hide Reconcile;
    forall x | x in s.listing && x.managed && x.created < s.cutoff && x.name in s.orphans ensures Taken(calls, x.name) {
      var i := ChainTakesEveryOrphan(calls, x);
      assert TakenBy(calls[i], x.name);
    }
    forall p | p in s.expired ensures Taken(calls, p.name) {
      var i := ChainTakesEveryClaim(calls, p);
      assert TakenBy(calls[i], p.name);
    }
  }

  predicate TakenBy(c: Call, name: nat) { 1 <= c.limit && name in ResultOf(c).candidates }

  ghost predicate Taken(calls: seq<Call>, name: nat) { exists i | 0 <= i < |calls| :: TakenBy(calls[i], name) }

  // ---- why the claims have to be orphans -----------------------------------------------------------------------------

  /** Two collections and two expired claims, the first of which names no orphan. */
  function OneIneligible(): Snapshot {
    Snapshot([Position(0, 0), Position(1, 1)], [Listed(0, true, 0), Listed(1, true, 0)], {1}, 1)
  }

  /** In that world two cursors lead to each other for ever. */
  lemma IneligibleClaimLoops()
    ensures var s := OneIneligible();
            var a, b := Cursor(None, Some(Position(0, 0)), false, false), Cursor(Some(0), Some(Position(1, 1)), true, false);
            && s.Valid() && !AllOrphans(s)
            && Reconcile(s, 2, START).next == Some(a)
            && Reconcile(s, 2, a).next == Some(b) && Reconcile(s, 2, b).next == Some(a)
  {
    var s := OneIneligible();
    FirstScan(s, START);
    FirstScan(s, Cursor(Some(0), Some(Position(1, 1)), true, false));
    SecondScan(s);
    assert s.expired[0].name !in s.orphans;
    hide Scanned, EligibleNames, RowsAfter, ExhaustedAfter, PositionAfter, WithPage;
    assert ListedAfter(s.listing, Some(0)) == s.listing[1..];
  }

  lemma FirstScan(s: Snapshot, cursor: Cursor)
    requires s == OneIneligible() && !cursor.qdrantTurn && (cursor.exhausted || cursor.expiredAfter.None?)
    ensures Scanned(s, 2, cursor) == [s.expired[0]] && EligibleNames(Scanned(s, 2, cursor), s.orphans) == []
    ensures !ExhaustedAfter(s, 2, cursor) && PositionAfter(s, 2, cursor) == Some(s.expired[0])
  {
    assert RowsAfter(s.expired, ScanFrom(2, cursor)) == s.expired && s.expired[..1] == [s.expired[0]];
    assert [s.expired[0]][..0] == [];
  }

  lemma SecondScan(s: Snapshot)
    requires s == OneIneligible()
    ensures var cursor := Cursor(None, Some(Position(0, 0)), false, false);
            && Scanned(s, 2, cursor) == [s.expired[1]] && EligibleNames(Scanned(s, 2, cursor), s.orphans) == [1]
            && ExhaustedAfter(s, 2, cursor) && PositionAfter(s, 2, cursor) == Some(s.expired[1])
  {
    assert s.expired[1..] == [s.expired[1]];
    assert [s.expired[1]][..0] == [];
  }
}
