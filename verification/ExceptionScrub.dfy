/**
 Scrubbing an exception and everything linked to it, api/errors.py: `_clear_exception_graph` walks
 groups, causes and contexts while it removes them; `sanitize_exception_graph` returns a redacted
 copy of a group and clears the original in every case.
 */
module ExceptionScrub {
  import opened Prelude
  import opened ExceptionPaths
  import opened ExceptionGraph

  datatype Text = Original | Redacted

  /** The attributes of one exception that the scrub reads or writes. */
  datatype Attributes = Attributes(
    shape: Shape, isValidation: bool, cause: Option<Node>, context: Option<Node>, traceback: bool, args: Text, body: Text)

  /** Every exception's attributes, by identity. */
  type Memory = map<Node, Attributes>

  class ExceptionObject {
    const shape: Shape
    const isValidation: bool
    var cause: Option<Node>
    var context: Option<Node>
    var traceback: bool
    var args: Text
    /** A RequestValidationError's `body` and `_errors`. */
    var body: Text

    constructor (shape: Shape, isValidation: bool, cause: Option<Node>, context: Option<Node>, traceback: bool)
      ensures Now() == Attributes(shape, isValidation, cause, context, traceback, Original, Original)
    {
      this.shape, this.isValidation := shape, isValidation;
      this.cause, this.context, this.traceback := cause, context, traceback;
      this.args, this.body := Original, Original;
    }

    ghost function Now(): Attributes
      reads this
    {
      Attributes(shape, isValidation, cause, context, traceback, args, body)
    }
  }

  type Objects = map<Node, ExceptionObject>

  ghost predicate Separate(objects: Objects) {
    forall a, b | a in objects && b in objects && a != b :: objects[a] != objects[b]
  }

  ghost function Snapshot(objects: Objects): (m: Memory)
    reads objects.Values
  {
    map n | n in objects :: objects[n].Now()
  }

  // ---- what is reached and what becomes of it --------------------------------------------------------

  function OptionSeq(n: Option<Node>): seq<Node> { if n.Some? then [n.value] else [] }

  function Members(a: Attributes): seq<Node> {
    if ReadableGroup(a.shape) then a.shape.members.value else []
  }

  function LinksOf(a: Attributes): seq<Node> { Members(a) + OptionSeq(a.cause) + OptionSeq(a.context) }

  function Links(m: Memory, n: Node): seq<Node> { if n in m then LinksOf(m[n]) else [] }

  ghost predicate LinkedPath(m: Memory, root: Node, path: seq<Node>) {
    |path| > 0 && path[0] == root && forall i | 0 <= i < |path| - 1 :: path[i+1] in Links(m, path[i])
  }

  /** Some chain of group members, causes and contexts leads from the root to the node. */
  ghost predicate Linked(m: Memory, root: Node, n: Node) {
    exists path :: LinkedPath(m, root, path) && path[|path|-1] == n
  }

  ghost predicate LinksInside(m: Memory) {
    forall n, c | n in m && c in Links(m, n) :: c in m
  }

  function Cleared(a: Attributes, redactArgs: bool): Attributes {
    a.(cause := None, context := None, traceback := false,
       args := if redactArgs || a.isValidation then Redacted else a.args,
       body := if a.isValidation then Redacted else a.body)
  }

  /** After a scrub: what was linked to the root when it began is cleared, the rest is as it was. */
  ghost predicate Scrubbed(before: Memory, root: Node, redactArgs: bool, after: Memory) {
    && after.Keys == before.Keys
    && forall n | n in before ::
         after[n] == if Linked(before, root, n) then Cleared(before[n], redactArgs) else before[n]
  }

  // ---- the worklist ------------------------------------------------------------------------------------

  /** What the loop has done so far to the memory it began with. */
  ghost predicate Progress(before: Memory, visited: set<Node>, redactArgs: bool, now: Memory) {
    && now.Keys == before.Keys
    && forall n | n in before :: now[n] == if n in visited then Cleared(before[n], redactArgs) else before[n]
  }

  /** A set of nodes that holds the root and whatever its members are linked to. */
  ghost predicate Holds(before: Memory, root: Node, reach: set<Node>) {
    root in reach && reach <= before.Keys && forall n, c | n in reach && c in Links(before, n) :: c in reach
  }

  /** Every link of a visited node, in the memory the walk began with, is visited or waiting. */
  ghost predicate Frontier(before: Memory, root: Node, reach: set<Node>, visited: set<Node>, pending: seq<Node>) {
    && (root in visited || root in pending)
    && (forall n, c | n in visited && c in Links(before, n) :: c in visited || c in pending)
    && (forall n | n in pending :: n in reach)
    && visited <= reach
  }

  lemma LinkExtends(m: Memory, root: Node, n: Node, c: Node)
    requires Linked(m, root, n) && c in Links(m, n)
    ensures Linked(m, root, c)
  {
    var path :| LinkedPath(m, root, path) && path[|path|-1] == n;
    var longer := path + [c];
    forall i | 0 <= i < |longer| - 1 ensures longer[i+1] in Links(m, longer[i]) {
      if i < |path| - 1 {
        assert path[i+1] in Links(m, path[i]);
      }
    }
    assert LinkedPath(m, root, longer) && longer[|longer|-1] == c;
  }

  lemma {:induction false} LinkedStaysInside(m: Memory, root: Node, path: seq<Node>, i: nat)
    requires LinksInside(m) && root in m && LinkedPath(m, root, path) && i < |path|
    ensures path[i] in m
  {
    if i > 0 {
      LinkedStaysInside(m, root, path, i - 1);
    }
  }

  lemma LinkedIsKnown(m: Memory, root: Node, n: Node)
    requires LinksInside(m) && root in m && Linked(m, root, n)
    ensures n in m
  {
    var path :| LinkedPath(m, root, path) && path[|path|-1] == n;
    LinkedStaysInside(m, root, path, |path| - 1);
  }

  /** Entering a node leaves it cleared and its links waiting. */
  lemma VisitProgresses(before: Memory, root: Node, reach: set<Node>, redactArgs: bool, visited: set<Node>,
                        pending: seq<Node>, now: Memory)
    requires pending != [] && pending[|pending|-1] !in visited && Holds(before, root, reach)
    requires Frontier(before, root, reach, visited, pending) && Progress(before, visited, redactArgs, now)
    ensures var n := pending[|pending|-1];
            && n in before && now[n] == before[n]
            && Frontier(before, root, reach, visited + {n}, pending[..|pending|-1] + Links(now, n))
            && Progress(before, visited + {n}, redactArgs, now[n := Cleared(now[n], redactArgs)])
            && |reach - (visited + {n})| < |reach - visited|
  {
    var n := pending[|pending|-1];
    var rest := pending[..|pending|-1];
    assert pending == rest + [n];
    assert n in pending;
    var next := rest + Links(before, n);
    forall m, c | m in visited + {n} && c in Links(before, m) ensures c in visited + {n} || c in next {
      if m != n {
        assert c in visited || c in rest + [n];
      }
    }
    assert reach - visited == (reach - (visited + {n})) + {n};
  }

  lemma SkipKeepsFrontier(before: Memory, root: Node, reach: set<Node>, visited: set<Node>, pending: seq<Node>)
    requires Frontier(before, root, reach, visited, pending) && pending != [] && pending[|pending|-1] in visited
    ensures Frontier(before, root, reach, visited, pending[..|pending|-1])
  {
    var rest := pending[..|pending|-1];
    assert pending == rest + [pending[|pending|-1]];
    forall m, c | m in visited && c in Links(before, m) ensures c in visited || c in rest {
      assert c in visited || c in pending;
    }
  }

  lemma EmptyFrontier(before: Memory, root: Node, reach: set<Node>, visited: set<Node>)
    requires Frontier(before, root, reach, visited, []) && Holds(before, root, reach)
    ensures Holds(before, root, visited)
  {
    forall n, c | n in visited && c in Links(before, n) ensures c in visited {}
  }

  /** The nodes linked to the root are the least such set. */
  ghost function Reach(m: Memory, root: Node): set<Node> { set n | n in m && Linked(m, root, n) }

  lemma ReachHolds(m: Memory, root: Node)
    requires root in m && LinksInside(m)
    ensures Holds(m, root, Reach(m, root))
  {
    assert Linked(m, root, root) by {
      assert LinkedPath(m, root, [root]);
    }
    forall n, c | n in Reach(m, root) && c in Links(m, n) ensures c in Reach(m, root) {
      LinkExtends(m, root, n, c);
    }
  }

  lemma {:induction false} HoldsPath(m: Memory, root: Node, reach: set<Node>, path: seq<Node>, i: nat)
    requires Holds(m, root, reach) && LinkedPath(m, root, path) && i < |path|
    ensures path[i] in reach
  {
    if i > 0 {
      HoldsPath(m, root, reach, path, i - 1);
    }
  }

  lemma ReachIsLeast(m: Memory, root: Node, reach: set<Node>)
    requires Holds(m, root, reach)
    ensures Reach(m, root) <= reach
  {
    forall n | n in Reach(m, root) ensures n in reach {
      var path :| LinkedPath(m, root, path) && path[|path|-1] == n;
      HoldsPath(m, root, reach, path, |path| - 1);
    }
  }

  // ---- the operations -----------------------------------------------------------------------------------

  /** The assignments to one exception, after its links have been read. */
  method ClearAttributes(current: ExceptionObject, redactArgs: bool)
    modifies current
    ensures current.Now() == Cleared(old(current.Now()), redactArgs)
  {
    if current.isValidation {
      current.body := Redacted;
      current.args := Redacted;
      current.traceback := false;
    }
    if redactArgs && !current.isValidation {
      current.args := Redacted;
    }
    current.traceback := false;
    current.cause := None;
    current.context := None;
  }

  /** What is in memory while the walk runs. */
  ghost predicate Mirrors(objects: Objects, repr: set<ExceptionObject>, now: Memory)
    requires forall n | n in objects :: objects[n] in repr
    reads repr
  {
    && objects.Keys == now.Keys
    && forall n | n in objects :: objects[n].Now() == now[n]
  }

  /** Clearing one exception changes no other. */
  method ClearOne(objects: Objects, ghost repr: set<ExceptionObject>, n: Node, redactArgs: bool, ghost now: Memory)
    requires n in objects && Separate(objects) && forall m | m in objects :: objects[m] in repr
    requires Mirrors(objects, repr, now)
    modifies objects[n]
    ensures Mirrors(objects, repr, now[n := Cleared(now[n], redactArgs)])
  {
    ClearAttributes(objects[n], redactArgs);
    forall m | m in objects ensures objects[m].Now() == now[n := Cleared(now[n], redactArgs)][m] {
      assert m != n ==> objects[m] != objects[n];
    }
  }

  /** The links of one exception, appended to the worklist. */
  method ReadLinks(current: ExceptionObject, pending: seq<Node>) returns (result: seq<Node>)
    ensures result == pending + LinksOf(current.Now())
  {
    result := pending;
    if ReadableGroup(current.shape) {
      result := result + current.shape.members.value;
    }
    result := result + OptionSeq(current.cause);
    result := result + OptionSeq(current.context);
  }

  /** The loop of `_clear_exception_graph`: it visits the least set that holds the root. */
  method ClearReachable(objects: Objects, root: Node, redactArgs: bool, ghost repr: set<ExceptionObject>,
                        ghost before: Memory, ghost reach: set<Node>)
    returns (ghost visited: set<Node>, ghost now: Memory)
    requires Separate(objects) && forall n | n in objects :: objects[n] in repr
    requires Mirrors(objects, repr, before) && Holds(before, root, reach)
    modifies repr
    ensures visited <= reach && Holds(before, root, visited)
    ensures Mirrors(objects, repr, now) && Progress(before, visited, redactArgs, now)
  {
    now := before;
    var pending: seq<Node> := [root];
    var seen: set<Node> := {};
    while pending != []
      invariant Frontier(before, root, reach, seen, pending)
      invariant Mirrors(objects, repr, now) && Progress(before, seen, redactArgs, now)
      decreases |reach - seen|, |pending|
    {
      var n := pending[|pending|-1];
      if n in seen {
        SkipKeepsFrontier(before, root, reach, seen, pending);
        pending := pending[..|pending|-1];
        continue;
      }
      VisitProgresses(before, root, reach, redactArgs, seen, pending, now);
      pending := ReadLinks(objects[n], pending[..|pending|-1]);
      seen := seen + {n};
      ClearOne(objects, repr, n, redactArgs, now);
      now := now[n := Cleared(now[n], redactArgs)];
    }
    EmptyFrontier(before, root, reach, seen);
    visited := seen;
  }

  /** `_clear_exception_graph`. */
  method ClearExceptionGraph(objects: Objects, root: Node, redactArgs: bool)
    requires root in objects && Separate(objects) && LinksInside(Snapshot(objects))
    modifies objects.Values
    ensures Scrubbed(old(Snapshot(objects)), root, redactArgs, Snapshot(objects))
  {
    ghost var before := Snapshot(objects);
    ReachHolds(before, root);
    ghost var visited, now := ClearReachable(objects, root, redactArgs, objects.Values, before, Reach(before, root));
    ReachIsLeast(before, root, visited);
    assert now == Snapshot(objects);
  }

  function Shapes(m: Memory): Graph { map n | n in m :: m[n].shape }

  datatype Sanitized = Same | Copy(safe: SafeException)

  /**
   `sanitize_exception_graph`. The shapes are read before the links are cleared; a group that is not
   copied is replaced by a plain RuntimeError. The original is cleared on every path.
   */
  method SanitizeExceptionGraph(objects: Objects, root: Node, redactArgs: bool)
    returns (result: Sanitized, ghost copies: Replacements, ghost order: seq<Node>)
    requires root in objects && Separate(objects) && LinksInside(Snapshot(objects))
    modifies objects.Values
    ensures Scrubbed(old(Snapshot(objects)), root, redactArgs, Snapshot(objects))
    ensures result.Same? <==> !redactArgs || objects[root].shape.Leaf?
    ensures result.Copy? ==>
              var shapes := old(Shapes(Snapshot(objects)));
              if WithinLimits(shapes, root) then SafeCopy(shapes, root, copies, order) && result.safe == copies[root]
              else !result.safe.isGroup && result.safe.isException
  {
    hide WithinCounts, MetWithinDepth, SafeCopy, Scrubbed;
    result, copies, order := Same, map[], [];
    if redactArgs && objects[root].shape.Group? {
      var shapes: Graph := map n | n in objects :: objects[n].shape;
      assert shapes == Shapes(Snapshot(objects));
      assert Closed(shapes) by {
        forall n, c | n in shapes && c in Children(shapes, n) ensures c in shapes {
          assert c in Links(Snapshot(objects), n);
        }
      }
      var copy, steps;
      copy, copies, order, steps := SafeExceptionGraph(shapes, root);
      if copy == null {
        copy := new SafeException(true, false, []);
      }
      result := Copy(copy);
    }
    ClearExceptionGraph(objects, root, redactArgs);
  }

  /** What a cleared exception still leads to. */
  lemma ClearedLinks(before: Memory, root: Node, redactArgs: bool, after: Memory, n: Node)
    requires Scrubbed(before, root, redactArgs, after) && n in before && Linked(before, root, n)
    ensures Links(after, n) == Members(before[n]) && forall c | c in Members(before[n]) :: c in Links(before, n)
  {
    hide Linked;
    assert after[n] == Cleared(before[n], redactArgs);
  }

  lemma ShorterPath(m: Memory, root: Node, path: seq<Node>)
    requires LinkedPath(m, root, path) && |path| > 1
    ensures var shorter := path[..|path|-1];
            LinkedPath(m, root, shorter) && path[|path|-1] in Links(m, shorter[|shorter|-1])
  {
    var n := |path| - 1;
    assert path[n-1+1] in Links(m, path[n-1]);
  }

  lemma RootIsLinked(m: Memory, root: Node)
    ensures Linked(m, root, root)
  {
    assert LinkedPath(m, root, [root]);
  }

  /** After a scrub nothing is linked to the root any more except through groups. */
  lemma {:induction false} ScrubCutsLinks(before: Memory, root: Node, redactArgs: bool, after: Memory, path: seq<Node>)
    requires LinksInside(before) && root in before && Scrubbed(before, root, redactArgs, after)
    requires LinkedPath(after, root, path)
    ensures Linked(before, root, path[|path|-1]) && path[|path|-1] in before
    ensures Links(after, path[|path|-1]) == Members(before[path[|path|-1]])
  {
    var n := path[|path|-1];
    if |path| == 1 {
      RootIsLinked(before, root);
    } else {
      var shorter := path[..|path|-1];
      ShorterPath(after, root, path);
      ScrubCutsLinks(before, root, redactArgs, after, shorter);
      hide LinkedPath, Linked, Scrubbed, LinksInside;
      ClearedLinks(before, root, redactArgs, after, shorter[|shorter|-1]);
      LinkExtends(before, root, shorter[|shorter|-1], n);
    }
    LinkedIsKnown(before, root, n);
    ClearedLinks(before, root, redactArgs, after, n);
  }

  // ---- a scrub, field by field ---------------------------------------------------------------------------

  /** One exception leads to another: as its cause, its context, or a member of its group. */
  predicate LeadsTo(a: Attributes, c: Node) {
    || a.cause == Some(c) || a.context == Some(c)
    || (a.shape.Group? && a.shape.members.Some? && 1 <= |a.shape.members.value| <= MAX_CHILD_REFERENCES && c in a.shape.members.value)
  }

  ghost predicate Chain(m: Memory, root: Node, path: seq<Node>) {
    |path| > 0 && path[0] == root && forall i | 0 <= i < |path| - 1 :: path[i] in m && LeadsTo(m[path[i]], path[i+1])
  }

  lemma ChainIsLinkedPath(m: Memory, root: Node, path: seq<Node>)
    ensures Chain(m, root, path) <==> LinkedPath(m, root, path)
  {
    hide LeadsTo, Links;
    if Chain(m, root, path) {
      forall i | 0 <= i < |path| - 1 ensures path[i+1] in Links(m, path[i]) {
        assert path[i] in m && LeadsTo(m[path[i]], path[i+1]);
        StepIsLink(m, path[i], path[i+1]);
      }
    }
    if LinkedPath(m, root, path) {
      forall i | 0 <= i < |path| - 1 ensures path[i] in m && LeadsTo(m[path[i]], path[i+1]) {
        assert path[i+1] in Links(m, path[i]);
        StepIsLink(m, path[i], path[i+1]);
      }
    }
  }

  lemma StepIsLink(m: Memory, n: Node, c: Node)
    ensures n in m && LeadsTo(m[n], c) <==> c in Links(m, n)
  {
    if n in m {
      LeadsIsLink(m[n], c);
    }
  }

  lemma LeadsIsLink(a: Attributes, c: Node)
    ensures LeadsTo(a, c) <==> c in LinksOf(a)
  {
    OptionHolds(a.cause, c);
    OptionHolds(a.context, c);
    assert c in Members(a) + OptionSeq(a.cause) <==> c in Members(a) || c in OptionSeq(a.cause);
    assert c in LinksOf(a) <==> c in Members(a) || c in OptionSeq(a.cause) || c in OptionSeq(a.context);
  }

  lemma OptionHolds(n: Option<Node>, c: Node)
    ensures c in OptionSeq(n) <==> n == Some(c)
  {}

  /**
   After a scrub, an exception that a chain of causes, contexts and group members leads to has lost its cause, its context
   and its traceback; its arguments are redacted if asked for or if it is a validation error, whose body is redacted always.
   Its kind and its members are as they were.
   */
  lemma ReachedIsCleared(before: Memory, root: Node, redactArgs: bool, after: Memory, path: seq<Node>)
    requires Scrubbed(before, root, redactArgs, after) && Chain(before, root, path) && path[|path|-1] in before
    ensures var n := path[|path|-1];
            && n in after && after[n].cause == None && after[n].context == None && !after[n].traceback
            && after[n].args == (if redactArgs || before[n].isValidation then Redacted else before[n].args)
            && after[n].body == (if before[n].isValidation then Redacted else before[n].body)
            && after[n].shape == before[n].shape && after[n].isValidation == before[n].isValidation
  {
    ChainIsLinkedPath(before, root, path);
    assert Linked(before, root, path[|path|-1]);
    hide LinkedPath;
  }

  /** An exception no chain leads to is as it was. */
  lemma UnreachedIsUntouched(before: Memory, root: Node, redactArgs: bool, after: Memory, n: Node)
    requires Scrubbed(before, root, redactArgs, after) && n in before
    requires forall path | Chain(before, root, path) :: path[|path|-1] != n
    ensures n in after && after[n] == before[n]
  {
    if Linked(before, root, n) {
      var path :| LinkedPath(before, root, path) && path[|path|-1] == n;
      ChainIsLinkedPath(before, root, path);
      assert false;
    }
  }
}
