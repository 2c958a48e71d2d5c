/**
 The exception graphs of api/errors.py as graphs: paths, cycles, and the routes by which a walk that takes
 the first child first meets a node. An object is named by its identity, the number `id()` returns.
 */
module ExceptionPaths {
  import opened Prelude

  const MAX_NODES := 256
  const MAX_DEPTH := 64
  const MAX_CHILD_REFERENCES := 1_024

  /** What `id()` returns. */
  type Node = nat

  /** A group's children are None where they are not a tuple of exceptions. */
  datatype Shape = Leaf(isException: bool) | Group(isException: bool, members: Option<seq<Node>>)

  type Graph = map<Node, Shape>

  /** `_exception_group_children` returns; otherwise it raises. */
  predicate ReadableGroup(s: Shape) {
    s.Group? && s.members.Some? && 1 <= |s.members.value| <= MAX_CHILD_REFERENCES
  }

  /** The children the walks follow. */
  function Children(g: Graph, n: Node): seq<Node> {
    if n in g && ReadableGroup(g[n]) then g[n].members.value else []
  }

  // ---- paths and cycles -------------------------------------------------------------------------

  ghost predicate IsPath(g: Graph, path: seq<Node>) {
    |path| > 0 && forall i | 0 <= i < |path| - 1 :: path[i+1] in Children(g, path[i])
  }

  ghost predicate PathFrom(g: Graph, root: Node, path: seq<Node>) {
    IsPath(g, path) && path[0] == root
  }

  /** Some path from the root meets a node twice. */
  ghost predicate Cyclic(g: Graph, root: Node) {
    exists path :: PathFrom(g, root, path) && Repeats(path)
  }

  ghost predicate Repeats(path: seq<Node>) {
    exists i, j | 0 <= i < j < |path| :: path[i] == path[j]
  }

  /** Children are finished before their parents. */
  ghost predicate Topological(g: Graph, order: seq<Node>) {
    forall k, c | 0 <= k < |order| && c in Children(g, order[k]) :: c in order[..k]
  }

  ghost predicate Reachable(g: Graph, root: Node, n: Node) {
    exists path :: PathFrom(g, root, path) && path[|path|-1] == n
  }

  /** The depth limit is kept on every path. */
  ghost predicate Shallow(g: Graph, root: Node) {
    forall path | PathFrom(g, root, path) :: |path| <= MAX_DEPTH + 1
  }

  // ---- routes ----------------------------------------------------------------------------------------

  /** Where a route leads: from the root, the child of that index, step by step. */
  function Follow(g: Graph, root: Node, route: seq<nat>): Option<Node> {
    if route == [] then Some(root)
    else
      var last := route[|route|-1];
      match Follow(g, root, route[..|route|-1])
      case None => None
      case Some(n) => if last < |Children(g, n)| then Some(Children(g, n)[last]) else None
  }

  /** The first route ends earlier, or takes an earlier child where they part. */
  ghost predicate Earlier(a: seq<nat>, b: seq<nat>) { exists j :: PartAt(a, b, j) }

  predicate PartAt(a: seq<nat>, b: seq<nat>, j: int) {
    0 <= j <= |a| && j < |b| && a[..j] == b[..j] && (j == |a| || a[j] < b[j])
  }

  /** The route leads to a node, and no earlier one leads to the same. */
  ghost predicate IsFirst(g: Graph, root: Node, route: seq<nat>) {
    && Follow(g, root, route).Some?
    && forall other | Follow(g, root, other) == Follow(g, root, route) :: !Earlier(other, route)
  }

  /**
   A walk that takes the first child first, in depth, meets every node within the depth limit: the earliest
   route to a node has no more steps than allowed.
   */
  ghost predicate MetWithinDepth(g: Graph, root: Node) {
    forall route | IsFirst(g, root, route) :: |route| <= MAX_DEPTH
  }

  /** The nodes a route comes through. */
  ghost function PathOf(g: Graph, root: Node, route: seq<nat>): (path: seq<Node>)
    requires Follow(g, root, route).Some?
    ensures |path| == |route| + 1 && PathFrom(g, root, path) && path[|route|] == Follow(g, root, route).value
  {
    if route == [] then [root]
    else
      var front := PathOf(g, root, route[..|route|-1]);
      var path := front + [Follow(g, root, route).value];
      assert IsPath(g, path) by { PathGrows(g, front, Follow(g, root, route).value); }
      path
  }

  lemma PathGrows(g: Graph, path: seq<Node>, n: Node)
    requires IsPath(g, path) && n in Children(g, path[|path|-1])
    ensures IsPath(g, path + [n])
  {
    forall i | 0 <= i < |path| ensures (path + [n])[i+1] in Children(g, (path + [n])[i]) {
      assert i < |path| - 1 ==> path[i+1] in Children(g, path[i]);
    }
  }

  lemma {:induction false} PathOfPart(g: Graph, root: Node, route: seq<nat>, j: nat)
    requires Follow(g, root, route).Some? && j <= |route|
    ensures Follow(g, root, route[..j]).Some? && PathOf(g, root, route)[j] == Follow(g, root, route[..j]).value
  {
    if j == |route| {
      assert route[..j] == route;
    } else {
      PathOfPart(g, root, route[..|route|-1], j);
      assert route[..|route|-1][..j] == route[..j];
    }
  }

  /** A route that comes back to a node it has left tells of a cycle. */
  lemma ReturnIsCycle(g: Graph, root: Node, route: seq<nat>, j: nat)
    requires Follow(g, root, route).Some? && j < |route| && Follow(g, root, route[..j]) == Follow(g, root, route)
    ensures Cyclic(g, root)
  {
    PathOfPart(g, root, route, j);
    var path := PathOf(g, root, route);
    assert path[j] == path[|route|];
    assert Repeats(path);
  }

  /** What is finished has finished all below it. */
  lemma {:induction false} StaysFinished(g: Graph, root: Node, order: seq<Node>, route: seq<nat>, j: nat)
    requires Topological(g, order) && Follow(g, root, route).Some? && j <= |route|
    requires Follow(g, root, route[..j]).Some? && Follow(g, root, route[..j]).value in order
    ensures Follow(g, root, route).value in order
  {
    if j == |route| {
      assert route[..j] == route;
    } else {
      var front := route[..|route|-1];
      assert front[..j] == route[..j];
      StaysFinished(g, root, order, front, j);
      ChildFinished(g, order, Follow(g, root, front).value, Follow(g, root, route).value);
    }
  }

  lemma ChildFinished(g: Graph, order: seq<Node>, n: Node, c: Node)
    requires Topological(g, order) && n in order && c in Children(g, n)
    ensures c in order
  {
    var k :| 0 <= k < |order| && order[k] == n;
    assert c in order[..k];
  }

  /** Everything the walk would have met before the next step of the route is finished. */
  ghost predicate FinishedBefore(g: Graph, root: Node, order: seq<Node>, route: seq<nat>) {
    forall k, i | 0 <= k < |route| && 0 <= i < route[k] :: SiblingFinished(g, root, order, route[..k], i)
  }

  ghost predicate SiblingFinished(g: Graph, root: Node, order: seq<Node>, route: seq<nat>, i: nat) {
    Follow(g, root, route).Some? && i < |Children(g, Follow(g, root, route).value)|
    && Children(g, Follow(g, root, route).value)[i] in order
  }

  /** Without cycles, a node that is not finished is met by its first route. */
  lemma UnfinishedIsFirst(g: Graph, root: Node, order: seq<Node>, route: seq<nat>)
    requires Topological(g, order) && !Cyclic(g, root) && FinishedBefore(g, root, order, route)
    requires Follow(g, root, route).Some? && Follow(g, root, route).value !in order
    ensures IsFirst(g, root, route)
  {
    forall other | Follow(g, root, other) == Follow(g, root, route) ensures !Earlier(other, route) {
      if Earlier(other, route) {
        var j :| PartAt(other, route, j);
        if j == |other| {
          assert other == route[..j];
          ReturnIsCycle(g, root, route, j);
        } else {
          TakesFinished(g, root, order, route, other, j);
        }
        assert false;
      }
    }
  }

  lemma TakesFinished(g: Graph, root: Node, order: seq<Node>, route: seq<nat>, other: seq<nat>, j: nat)
    requires Topological(g, order) && FinishedBefore(g, root, order, route)
    requires Follow(g, root, other).Some? && PartAt(other, route, j) && j < |other|
    ensures Follow(g, root, other).value in order
  {
    assert SiblingFinished(g, root, order, route[..j], other[j]);
    var step := other[..j+1];
    assert step[..|step|-1] == route[..j] && step[|step|-1] == other[j];
    StaysFinished(g, root, order, other, j + 1);
  }

  /** Of two different routes one is the earlier. */
  lemma {:induction false} OneIsEarlier(a: seq<nat>, b: seq<nat>, j: nat)
    requires a != b && j <= |a| && j <= |b| && a[..j] == b[..j]
    ensures Earlier(a, b) || Earlier(b, a)
    decreases |a| - j
  {
    if j == |a| || j == |b| {
      assert a[..|a|] == a && b[..|b|] == b;
      assert PartAt(a, b, j) || PartAt(b, a, j);
    } else if a[j] == b[j] {
      assert a[..j+1] == a[..j] + [a[j]] && b[..j+1] == b[..j] + [b[j]];
      OneIsEarlier(a, b, j + 1);
    } else {
      assert PartAt(a, b, j) || PartAt(b, a, j);
    }
  }

  /** A node has one first route. */
  lemma OneFirstRoute(g: Graph, root: Node, a: seq<nat>, b: seq<nat>)
    requires IsFirst(g, root, a) && IsFirst(g, root, b) && Follow(g, root, a) == Follow(g, root, b)
    ensures a == b
  {
    if a != b {
      OneIsEarlier(a, b, 0);
      assert false;
    }
  }

  /** Where no path is too long no first route is. */
  lemma ShallowIsMet(g: Graph, root: Node)
    requires Shallow(g, root)
    ensures MetWithinDepth(g, root)
  {
    forall route | IsFirst(g, root, route) ensures |route| <= MAX_DEPTH {
      assert |PathOf(g, root, route)| == |route| + 1;
    }
  }
}
