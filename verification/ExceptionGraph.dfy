/**
 The exception graphs of api/errors.py: building a redacted copy of an exception group with an
 explicit stack, and clearing an exception's links in place while walking them. An object is named
 by its identity, the number `id()` returns.
 */
module ExceptionGraph {
  import opened Prelude
  import opened ExceptionPaths

  // ---- the walk of `_safe_exception_graph`, on values ------------------------------------------------

  datatype Entry = Entry(node: Node, depth: nat, expanded: bool)

  /**
   The loop's variables: the stack (its top is last), the nodes being visited in the order they were
   entered, the nodes with a replacement in the order they were finished, and two counters. `route` leads
   to the child of the last node being visited that comes next.
   */
  datatype Walk = Walk(
    pending: seq<Entry>, trail: seq<Node>, route: seq<nat>, order: seq<Node>, references: nat, steps: nat)

  function Top(w: Walk): Entry
    requires w.pending != []
  {
    w.pending[|w.pending|-1]
  }

  function Rest(w: Walk): seq<Entry>
    requires w.pending != []
  {
    w.pending[..|w.pending|-1]
  }

  function Start(root: Node): Walk { Walk([Entry(root, 0, false)], [], [], [], 0, 0) }

  /** On to the next child. */
  function Advance(route: seq<nat>): seq<nat> {
    if route == [] then [] else route[..|route|-1] + [route[|route|-1] + 1]
  }

  /** Back to the parent. */
  function Up(route: seq<nat>): seq<nat> { if route == [] then [] else route[..|route|-1] }

  /** The popped node already has a replacement. */
  function Skip(w: Walk): Walk
    requires w.pending != []
  {
    w.(pending := Rest(w), route := Advance(w.route), steps := w.steps + 1)
  }

  /** The popped node's subtree is done: it leaves `visiting` and gets its replacement. */
  function Finish(w: Walk): Walk
    requires w.pending != [] && w.trail != []
  {
    w.(pending := Rest(w), trail := w.trail[..|w.trail|-1], route := Advance(Up(w.route)), order := w.order + [Top(w).node],
       steps := w.steps + 1)
  }

  function Unvisited(children: seq<Node>, depth: nat): seq<Entry> {
    if children == [] then [] else Unvisited(children[1..], depth) + [Entry(children[0], depth, false)]
  }

  /** The popped node is entered: its marker goes back on the stack, its children above it, first child on top. */
  function Enter(g: Graph, w: Walk): Walk
    requires w.pending != []
  {
    var top := Top(w);
    w.(pending := Rest(w) + [Entry(top.node, top.depth, true)] + Unvisited(Children(g, top.node), top.depth + 1),
       trail := w.trail + [top.node],
       route := w.route + [0],
       references := w.references + |Children(g, top.node)|,
       steps := w.steps + 1)
  }

  function ReferencesOf(g: Graph, nodes: seq<Node>): nat {
    if nodes == [] then 0 else ReferencesOf(g, nodes[..|nodes|-1]) + |Children(g, nodes[|nodes|-1])|
  }

  // ---- its invariant ---------------------------------------------------------------------------------

  predicate Below(a: Entry, b: Entry) { a.depth <= b.depth && (a.expanded ==> a.depth < b.depth) }

  predicate EntryFits(g: Graph, root: Node, trail: seq<Node>, e: Entry) {
    if e.expanded then e.depth < |trail| && trail[e.depth] == e.node
    else if e.depth == 0 then trail == [] && e.node == root
    else e.depth <= |trail| && e.node in Children(g, trail[e.depth-1])
  }

  /** Every child of the k-th node on the trail is finished, waiting on the stack, or next on the trail. */
  predicate ChildKept(w: Walk, k: nat, c: Node)
    requires k < |w.trail|
  {
    c in w.order || Entry(c, k + 1, false) in w.pending || (k + 1 < |w.trail| && c == w.trail[k+1])
  }

  predicate Readable(g: Graph, n: Node) { n in g && (g[n].Group? ==> ReadableGroup(g[n])) }

  ghost predicate Distinct(nodes: seq<Node>) {
    forall i, j | 0 <= i < j < |nodes| :: nodes[i] != nodes[j]
  }

  /** Reachable without exceeding the depth limit. */
  ghost predicate Near(g: Graph, root: Node, n: Node) {
    exists path :: PathFrom(g, root, path) && path[|path|-1] == n && |path| <= MAX_DEPTH + 1
  }

  ghost predicate Sorted(pending: seq<Entry>) {
    forall i, j | 0 <= i < j < |pending| :: Below(pending[i], pending[j])
  }

  ghost predicate Fitting(g: Graph, root: Node, trail: seq<Node>, pending: seq<Entry>) {
    forall i | 0 <= i < |pending| :: EntryFits(g, root, trail, pending[i]) && (pending[i].depth == 0 ==> i == 0)
  }

  /** Every node of the trail has its marker on the stack. */
  ghost predicate Marked(trail: seq<Node>, pending: seq<Entry>) {
    forall k | 0 <= k < |trail| :: Entry(trail[k], k, true) in pending
  }

  ghost predicate ChildrenKept(g: Graph, w: Walk) {
    forall k, c | 0 <= k < |w.trail| && c in Children(g, w.trail[k]) :: ChildKept(w, k, c)
  }

  ghost predicate StackOk(g: Graph, root: Node, w: Walk) {
    && Sorted(w.pending)
    && Fitting(g, root, w.trail, w.pending)
    && Marked(w.trail, w.pending)
    && ChildrenKept(g, w)
  }

  ghost predicate NodesOk(g: Graph, root: Node, w: Walk) {
    && (w.trail == [] || PathFrom(g, root, w.trail)) && |w.trail| <= MAX_DEPTH + 1
    && Distinct(w.trail + w.order)
    && Topological(g, w.order)
    && (forall n | n in w.order :: Near(g, root, n))
    && (forall n | n in w.order || n in w.trail :: Readable(g, n))
    && (root in w.order || root in w.trail || w == Start(root))
  }

  predicate CountersOk(g: Graph, w: Walk) {
    && w.references == ReferencesOf(g, w.order) + ReferencesOf(g, w.trail)
    && w.steps + |w.pending| == 1 + w.references + |w.order| + |w.trail|
  }

  function ChildrenFrom(g: Graph, n: Node, i: nat): seq<Node> {
    if i <= |Children(g, n)| then Children(g, n)[i..] else []
  }

  /** A marker, and the children from i on above it, the first on top. */
  function Level(g: Graph, below: seq<Entry>, n: Node, depth: nat, i: nat): seq<Entry> {
    below + [Entry(n, depth, true)] + Unvisited(ChildrenFrom(g, n, i), depth + 1)
  }

  /** The stack while the children the route takes are being visited: markers, and above each the later children. */
  function Waiting(g: Graph, trail: seq<Node>, route: seq<nat>): seq<Entry>
    requires |trail| == |route|
  {
    if trail == [] then []
    else
      var t := |trail| - 1;
      Level(g, Waiting(g, trail[..t], route[..t]), trail[t], t, route[t] + 1)
  }

  /** The stack when the child the route leads to comes next. */
  function StackOf(g: Graph, trail: seq<Node>, route: seq<nat>): seq<Entry>
    requires |trail| == |route|
  {
    if trail == [] then []
    else
      var t := |trail| - 1;
      Level(g, Waiting(g, trail[..t], route[..t]), trail[t], t, route[t])
  }

  /** The node is met by its first route, within the depth limit. */
  ghost predicate Met(g: Graph, root: Node, n: Node) {
    exists route :: IsFirst(g, root, route) && Follow(g, root, route) == Some(n) && |route| <= MAX_DEPTH
  }

  ghost predicate RouteOk(g: Graph, root: Node, w: Walk) {
    && |w.route| == |w.trail|
    && (w == Start(root) || w.pending == StackOf(g, w.trail, w.route))
    && (forall k | 0 <= k < |w.trail| :: Follow(g, root, w.route[..k]) == Some(w.trail[k]))
    && FinishedBefore(g, root, w.order, w.route)
    && (!Cyclic(g, root) ==> forall n | n in w.order :: Met(g, root, n))
  }

  ghost predicate WalkInv(g: Graph, root: Node, w: Walk) {
    StackOk(g, root, w) && NodesOk(g, root, w) && CountersOk(g, w) && RouteOk(g, root, w)
  }

  lemma StartOk(g: Graph, root: Node)
    ensures WalkInv(g, root, Start(root))
  {}

  lemma SkipKeeps(g: Graph, root: Node, w: Walk)
    requires WalkInv(g, root, w) && w.pending != [] && Top(w).node in w.order
    ensures WalkInv(g, root, Skip(w))
  {
    if Top(w).expanded {
      ExpandedTopIsLast(g, root, w);
      InTrailNotInOrder(w, Top(w).node);
      assert false;
    }
    SkipKeepsStack(g, root, w);
    SkipKeepsRoute(g, root, w);
  }

  lemma SkipKeepsStack(g: Graph, root: Node, w: Walk)
    requires StackOk(g, root, w) && w.pending != [] && !Top(w).expanded && Top(w).node in w.order
    ensures StackOk(g, root, Skip(w))
  {
    var after := Skip(w);
    forall k | 0 <= k < |after.trail| ensures Entry(after.trail[k], k, true) in after.pending {
      InRest(w.pending, Entry(w.trail[k], k, true));
    }
    forall k, c | 0 <= k < |after.trail| && c in Children(g, after.trail[k]) ensures ChildKept(after, k, c) {
      assert ChildKept(w, k, c);
      if Entry(c, k + 1, false) in w.pending && Entry(c, k + 1, false) != Top(w) {
        InRest(w.pending, Entry(c, k + 1, false));
      }
    }
  }

  lemma InTrailNotInOrder(w: Walk, n: Node)
    requires Distinct(w.trail + w.order)
    requires n in w.trail
    ensures n !in w.order
  {
    var i :| 0 <= i < |w.trail| && w.trail[i] == n;
    assert (w.trail + w.order)[i] == n;
    forall j | 0 <= j < |w.order| ensures w.order[j] != n {
      assert (w.trail + w.order)[|w.trail| + j] == w.order[j];
    }
  }

  /** An expanded top entry is the last node of the trail, and nothing is left above its depth. */
  lemma ExpandedTopIsLast(g: Graph, root: Node, w: Walk)
    requires StackOk(g, root, w) && w.pending != [] && Top(w).expanded
    ensures w.trail != [] && Top(w).depth == |w.trail| - 1 && Top(w).node == w.trail[|w.trail|-1]
    ensures forall c | c in Children(g, Top(w).node) :: c in w.order
  {
    var top := |w.pending| - 1;
    assert EntryFits(g, root, w.trail, w.pending[top]) && w.trail != [];
    var k := |w.trail| - 1;
    TopIsHighest(w.pending, Entry(w.trail[k], k, true));
    forall c | c in Children(g, Top(w).node) ensures c in w.order {
      assert ChildKept(w, k, c);
      if Entry(c, k + 1, false) in w.pending {
        TopIsHighest(w.pending, Entry(c, k + 1, false));
      }
    }
  }

  lemma TopIsHighest(pending: seq<Entry>, e: Entry)
    requires Sorted(pending) && e in pending
    ensures e == pending[|pending|-1] || Below(e, pending[|pending|-1])
  {
    var i :| 0 <= i < |pending| && pending[i] == e;
    if i < |pending| - 1 {
      assert Below(pending[i], pending[|pending|-1]);
    }
  }

  lemma FinishKeeps(g: Graph, root: Node, w: Walk)
    requires WalkInv(g, root, w) && w.pending != [] && Top(w).expanded
    ensures w.trail != [] && WalkInv(g, root, Finish(w))
  {
    ExpandedTopIsLast(g, root, w);
    FinishKeepsStack(g, root, w);
    FinishKeepsNodes(g, root, w);
    FinishKeepsRoute(g, root, w);
    var after := Finish(w);
    assert after.order[..|after.order|-1] == w.order;
  }

  lemma FinishKeepsStack(g: Graph, root: Node, w: Walk)
    requires StackOk(g, root, w) && w.pending != [] && Top(w).expanded && w.trail != []
    requires Top(w).depth == |w.trail| - 1 && Top(w).node == w.trail[|w.trail|-1]
    ensures StackOk(g, root, Finish(w))
  {
    var after := Finish(w);
    var t := |w.trail| - 1;
    forall i | 0 <= i < |after.pending| ensures EntryFits(g, root, after.trail, after.pending[i]) {
      FinishKeepsFit(g, root, w, i);
    }
    forall k | 0 <= k < |after.trail| ensures Entry(after.trail[k], k, true) in after.pending {
      InRest(w.pending, Entry(w.trail[k], k, true));
    }
    forall k, c | 0 <= k < |after.trail| && c in Children(g, after.trail[k]) ensures ChildKept(after, k, c) {
      FinishKeepsChild(g, w, k, c);
    }
  }

  lemma InRest(pending: seq<Entry>, e: Entry)
    requires e in pending && e != pending[|pending|-1]
    ensures e in pending[..|pending|-1]
  {
    var i :| 0 <= i < |pending| && pending[i] == e;
    assert pending[..|pending|-1][i] == e;
  }

  lemma FinishKeepsFit(g: Graph, root: Node, w: Walk, i: nat)
    requires Sorted(w.pending) && Fitting(g, root, w.trail, w.pending)
    requires w.trail != [] && i < |w.pending| - 1 && Top(w).expanded && Top(w).depth == |w.trail| - 1
    ensures EntryFits(g, root, w.trail[..|w.trail|-1], w.pending[i])
  {
    assert Below(w.pending[i], w.pending[|w.pending|-1]);
    assert EntryFits(g, root, w.trail, w.pending[i]);
  }

  lemma FinishKeepsChild(g: Graph, w: Walk, k: nat, c: Node)
    requires ChildrenKept(g, w) && w.trail != [] && k < |w.trail| - 1 && c in Children(g, w.trail[k])
    requires w.pending != [] && Top(w).expanded && Top(w).node == w.trail[|w.trail|-1]
    ensures ChildKept(Finish(w), k, c)
  {
    var after := Finish(w);
    assert ChildKept(w, k, c);
    if c in w.order {
      assert c in after.order;
    } else if Entry(c, k + 1, false) in w.pending {
      InRest(w.pending, Entry(c, k + 1, false));
    } else if k + 1 == |w.trail| - 1 {
      assert after.order[|w.order|] == c;
    }
  }

  lemma FinishKeepsNodes(g: Graph, root: Node, w: Walk)
    requires NodesOk(g, root, w) && w.pending != [] && Top(w).expanded && w.trail != []
    requires Top(w).node == w.trail[|w.trail|-1]
    requires forall c | c in Children(g, Top(w).node) :: c in w.order
    ensures NodesOk(g, root, Finish(w))
  {
    var after := Finish(w);
    var n := Top(w).node;
    LastIsNear(g, root, w.trail);
    FrontIsPath(g, root, w.trail);
    LastMoves(w.trail, w.order);
    TopologicalAppend(g, w.order, n);
    TrailSplits(w.trail);
    hide Near, PathFrom, Distinct, Topological, Readable;
    assert n in after.order;
    forall m ensures m in after.order <==> m in w.order || m == n {}
  }

  lemma LastIsNear(g: Graph, root: Node, trail: seq<Node>)
    requires trail != [] && PathFrom(g, root, trail) && |trail| <= MAX_DEPTH + 1
    ensures Near(g, root, trail[|trail|-1])
  {}

  lemma FrontIsPath(g: Graph, root: Node, trail: seq<Node>)
    requires |trail| > 0 && PathFrom(g, root, trail)
    ensures var front := trail[..|trail|-1]; front == [] || PathFrom(g, root, front)
  {
    var front := trail[..|trail|-1];
    forall i | 0 <= i < |front| - 1 ensures front[i+1] in Children(g, front[i]) {
      assert trail[i+1] in Children(g, trail[i]);
    }
  }

  lemma TrailSplits(trail: seq<Node>)
    requires trail != []
    ensures forall m :: m in trail <==> m in trail[..|trail|-1] || m == trail[|trail|-1]
  {
    assert trail == trail[..|trail|-1] + [trail[|trail|-1]];
  }

  lemma LastMoves(trail: seq<Node>, order: seq<Node>)
    requires trail != [] && Distinct(trail + order)
    ensures Distinct(trail[..|trail|-1] + (order + [trail[|trail|-1]]))
  {
    var before, now, t := trail + order, trail[..|trail|-1] + (order + [trail[|trail|-1]]), |trail| - 1;
    forall i, j | 0 <= i < j < |now| ensures now[i] != now[j] {
      var a := if i < t then i else i + 1;
      var b := if j < t then j else if j < |now| - 1 then j + 1 else t;
      assert now[i] == before[a] && now[j] == before[b];
    }
  }

  lemma TopologicalAppend(g: Graph, order: seq<Node>, n: Node)
    requires Topological(g, order) && forall c | c in Children(g, n) :: c in order
    ensures Topological(g, order + [n])
  {
    var after := order + [n];
    forall k, c | 0 <= k < |after| && c in Children(g, after[k]) ensures c in after[..k] {
      if k < |order| {
        assert after[..k] == order[..k];
      } else {
        assert after[..k] == order;
      }
    }
  }

  lemma UnvisitedEntries(children: seq<Node>, depth: nat)
    ensures |Unvisited(children, depth)| == |children|
    ensures forall i | 0 <= i < |children| :: Unvisited(children, depth)[i] == Entry(children[|children|-1-i], depth, false)
  {
    if children != [] {
      UnvisitedEntries(children[1..], depth);
    }
  }

  /** A popped entry that is not expanded sits right above the whole trail: it is the root or a child of the last node. */
  lemma UnexpandedTopIsChild(g: Graph, root: Node, w: Walk)
    requires StackOk(g, root, w) && w.pending != [] && !Top(w).expanded
    ensures Top(w).depth == |w.trail|
    ensures w.trail == [] ==> Top(w).node == root
    ensures w.trail != [] ==> Top(w).node in Children(g, w.trail[|w.trail|-1])
  {
    var top := |w.pending| - 1;
    assert EntryFits(g, root, w.trail, w.pending[top]);
    if w.trail != [] {
      var k := |w.trail| - 1;
      TopIsHighest(w.pending, Entry(w.trail[k], k, true));
    }
  }

  lemma EnterKeeps(g: Graph, root: Node, w: Walk)
    requires WalkInv(g, root, w) && w.pending != [] && !Top(w).expanded
    requires Top(w).node !in w.order && Top(w).node !in w.trail && Readable(g, Top(w).node) && Top(w).depth <= MAX_DEPTH
    ensures WalkInv(g, root, Enter(g, w))
  {
    UnexpandedTopIsChild(g, root, w);
    EnterKeepsStack(g, root, w);
    EnterKeepsNodes(g, root, w);
    EnterKeepsCounters(g, w);
    EnterKeepsRoute(g, root, w);
    hide StackOk, NodesOk, CountersOk, RouteOk;
  }

  lemma EnterKeepsCounters(g: Graph, w: Walk)
    requires CountersOk(g, w) && w.pending != []
    ensures CountersOk(g, Enter(g, w))
  {
    UnvisitedEntries(Children(g, Top(w).node), Top(w).depth + 1);
    var after := Enter(g, w);
    assert after.trail[|after.trail|-1] == Top(w).node;
    assert after.trail[..|after.trail|-1] == w.trail;
  }

  lemma EnterKeepsNodes(g: Graph, root: Node, w: Walk)
    requires NodesOk(g, root, w) && w.pending != [] && Top(w).depth == |w.trail| <= MAX_DEPTH
    requires w.trail == [] ==> Top(w).node == root
    requires w.trail != [] ==> Top(w).node in Children(g, w.trail[|w.trail|-1])
    requires Top(w).node !in w.order && Top(w).node !in w.trail && Readable(g, Top(w).node)
    ensures NodesOk(g, root, Enter(g, w))
  {
    var n := Top(w).node;
    PathExtends(g, root, w.trail, n);
    EnterKeepsDistinct(w, n);
    hide Near, PathFrom, Distinct, Topological, Readable;
    assert (w.trail + [n])[|w.trail|] == n;
    assert forall m :: m in w.trail + [n] <==> m in w.trail || m == n;
  }

  lemma PathExtends(g: Graph, root: Node, trail: seq<Node>, n: Node)
    requires trail == [] || PathFrom(g, root, trail)
    requires if trail == [] then n == root else n in Children(g, trail[|trail|-1])
    ensures PathFrom(g, root, trail + [n])
  {
    var path := trail + [n];
    forall i | 0 <= i < |path| - 1 ensures path[i+1] in Children(g, path[i]) {
      assert i < |trail| - 1 ==> trail[i+1] in Children(g, trail[i]);
    }
  }

  lemma EnterKeepsDistinct(w: Walk, n: Node)
    requires Distinct(w.trail + w.order) && n !in w.trail && n !in w.order
    ensures Distinct(w.trail + [n] + w.order)
  {
    var before, now := w.trail + w.order, w.trail + [n] + w.order;
    var t := |w.trail|;
    forall i, j | 0 <= i < j < |now| ensures now[i] != now[j] {
      assert i < t ==> now[i] == before[i] && now[i] in w.trail;
      assert i > t ==> now[i] == before[i-1] && now[i] in w.order;
      assert j < t ==> now[j] == before[j];
      assert j > t ==> now[j] == before[j-1] && now[j] in w.order;
    }
  }

  lemma EnterKeepsStack(g: Graph, root: Node, w: Walk)
    requires StackOk(g, root, w) && w.pending != [] && !Top(w).expanded
    requires Top(w).depth == |w.trail|
    requires w.trail == [] ==> Top(w).node == root
    ensures StackOk(g, root, Enter(g, w))
  {
    var after := Enter(g, w);
    var marker := Entry(Top(w).node, Top(w).depth, true);
    forall i, j | 0 <= i < j < |after.pending| ensures Below(after.pending[i], after.pending[j]) {
      EnterKeepsSorted(g, w, i, j);
    }
    forall i | 0 <= i < |after.pending| ensures EntryFits(g, root, after.trail, after.pending[i]) {
      EnterKeepsFit(g, root, w, i);
    }
    assert after.pending[|w.pending|-1] == marker;
    forall k | 0 <= k < |after.trail| ensures Entry(after.trail[k], k, true) in after.pending {
      if k < |w.trail| {
        InRest(w.pending, Entry(w.trail[k], k, true));
      }
    }
    forall k, c | 0 <= k < |after.trail| && c in Children(g, after.trail[k]) ensures ChildKept(after, k, c) {
      EnterKeepsChild(g, w, k, c);
    }
  }

  lemma EnterKeepsSorted(g: Graph, w: Walk, i: nat, j: nat)
    requires Sorted(w.pending) && w.pending != [] && !Top(w).expanded
    requires i < j < |Enter(g, w).pending|
    ensures Below(Enter(g, w).pending[i], Enter(g, w).pending[j])
  {
    var top := |w.pending| - 1;
    UnvisitedEntries(Children(g, Top(w).node), Top(w).depth + 1);
    if j < top {
      assert Below(w.pending[i], w.pending[j]);
    } else if i < top {
      assert Below(w.pending[i], w.pending[top]);
    }
  }

  lemma EnterKeepsFit(g: Graph, root: Node, w: Walk, i: nat)
    requires Sorted(w.pending) && Fitting(g, root, w.trail, w.pending)
    requires w.pending != [] && !Top(w).expanded && Top(w).depth == |w.trail|
    requires i < |Enter(g, w).pending|
    ensures EntryFits(g, root, Enter(g, w).trail, Enter(g, w).pending[i])
  {
    var kids, top := Children(g, Top(w).node), |w.pending| - 1;
    UnvisitedEntries(kids, Top(w).depth + 1);
    if i < top {
      assert EntryFits(g, root, w.trail, w.pending[i]);
      assert Below(w.pending[i], w.pending[top]);
    } else if i > top {
      assert Enter(g, w).pending[i] == Entry(kids[|kids| - 1 - (i - top - 1)], Top(w).depth + 1, false);
    }
  }

  lemma EnterKeepsChild(g: Graph, w: Walk, k: nat, c: Node)
    requires ChildrenKept(g, w) && w.pending != [] && Top(w).depth == |w.trail|
    requires k <= |w.trail| && c in Children(g, Enter(g, w).trail[k])
    ensures ChildKept(Enter(g, w), k, c)
  {
    var after, kids, top := Enter(g, w), Children(g, Top(w).node), |w.pending| - 1;
    if k < |w.trail| {
      assert ChildKept(w, k, c);
      if Entry(c, k + 1, false) in w.pending && Entry(c, k + 1, false) != Top(w) {
        InRest(w.pending, Entry(c, k + 1, false));
      }
    } else {
      UnvisitedEntries(kids, Top(w).depth + 1);
      var i :| 0 <= i < |kids| && kids[i] == c;
      assert after.pending[top + 1 + (|kids| - 1 - i)] == Entry(c, k + 1, false);
    }
  }

  // ---- the route ------------------------------------------------------------------------------------------

  /** The top of a level is its next child, or the marker when there is none. */
  lemma TopOfLevel(g: Graph, below: seq<Entry>, n: Node, depth: nat, i: nat)
    ensures var kids, level := Children(g, n), Level(g, below, n, depth, i);
            && level != []
            && if i < |kids| then
                 level[|level|-1] == Entry(kids[i], depth + 1, false) && level[..|level|-1] == Level(g, below, n, depth, i + 1)
               else
                 level[|level|-1] == Entry(n, depth, true) && level[..|level|-1] == below
  {
    var kids, level := Children(g, n), Level(g, below, n, depth, i);
    if i < |kids| {
      assert kids[i..][1..] == kids[i + 1..];
      assert level == Level(g, below, n, depth, i + 1) + [Entry(kids[i], depth + 1, false)];
    } else {
      assert ChildrenFrom(g, n, i) == [] && level == below + [Entry(n, depth, true)];
    }
  }

  lemma StackAdvanced(g: Graph, trail: seq<Node>, route: seq<nat>)
    requires |trail| == |route|
    ensures Waiting(g, trail, route) == StackOf(g, trail, Advance(route))
  {
    hide Level;
    if trail != [] {
      var t := |trail| - 1;
      assert Advance(route)[..t] == route[..t] && Advance(route)[t] == route[t] + 1;
    }
  }

  lemma StackEntered(g: Graph, trail: seq<Node>, route: seq<nat>, n: Node)
    requires |trail| == |route|
    ensures StackOf(g, trail + [n], route + [0])
         == Waiting(g, trail, route) + [Entry(n, |trail|, true)] + Unvisited(Children(g, n), |trail| + 1)
  {
    hide Waiting, Unvisited;
    assert (trail + [n])[..|trail|] == trail && (route + [0])[..|route|] == route;
    assert ChildrenFrom(g, n, 0) == Children(g, n);
  }

  /** A node popped on the way down is where the route leads. */
  lemma TopOnRoute(g: Graph, root: Node, w: Walk)
    requires RouteOk(g, root, w) && w.pending != [] && !Top(w).expanded
    ensures Follow(g, root, w.route) == Some(Top(w).node)
    ensures Rest(w) == Waiting(g, w.trail, w.route)
  {
    hide Level, FinishedBefore, Met;
    if w.trail != [] {
      var t := |w.trail| - 1;
      TopOfLevel(g, Waiting(g, w.trail[..t], w.route[..t]), w.trail[t], t, w.route[t]);
      assert Follow(g, root, w.route[..t]) == Some(w.trail[t]);
    }
  }

  /** What comes next, once the child the route leads to is finished. */
  lemma {:induction false} AdvanceFinished(g: Graph, root: Node, order: seq<Node>, route: seq<nat>)
    requires FinishedBefore(g, root, order, route) && Follow(g, root, route).Some? && Follow(g, root, route).value in order
    ensures FinishedBefore(g, root, order, Advance(route))
  {
    var after := Advance(route);
    forall k, i | 0 <= k < |after| && 0 <= i < after[k] ensures SiblingFinished(g, root, order, after[..k], i) {
      assert after[..k] == route[..k];
      if i < route[k] {
        assert SiblingFinished(g, root, order, route[..k], i);
      }
    }
  }

  lemma {:induction false} PartFinished(g: Graph, root: Node, order: seq<Node>, route: seq<nat>, j: nat)
    requires FinishedBefore(g, root, order, route) && j <= |route|
    ensures FinishedBefore(g, root, order, route[..j])
  {
    forall k, i | 0 <= k < j && 0 <= i < route[..j][k] ensures SiblingFinished(g, root, order, route[..j][..k], i) {
      assert route[..j][..k] == route[..k] && SiblingFinished(g, root, order, route[..k], i);
    }
  }

  lemma MoreFinished(g: Graph, root: Node, order: seq<Node>, route: seq<nat>, n: Node)
    requires FinishedBefore(g, root, order, route)
    ensures FinishedBefore(g, root, order + [n], route)
  {
    forall k, i | 0 <= k < |route| && 0 <= i < route[k] ensures SiblingFinished(g, root, order + [n], route[..k], i) {
      assert SiblingFinished(g, root, order, route[..k], i);
    }
  }

  lemma SkipKeepsRoute(g: Graph, root: Node, w: Walk)
    requires RouteOk(g, root, w) && w.pending != [] && !Top(w).expanded && Top(w).node in w.order
    ensures RouteOk(g, root, Skip(w))
  {
    hide Waiting, StackOf, FinishedBefore, Met, Follow, Cyclic;
    TopOnRoute(g, root, w);
    StackAdvanced(g, w.trail, w.route);
    AdvanceFinished(g, root, w.order, w.route);
    AdvanceKeepsFront(w.route);
  }

  lemma AdvanceKeepsFront(route: seq<nat>)
    ensures |Advance(route)| == |route| && forall k | 0 <= k < |route| :: Advance(route)[..k] == route[..k]
  {}

  lemma EnterKeepsRoute(g: Graph, root: Node, w: Walk)
    requires RouteOk(g, root, w) && w.pending != [] && !Top(w).expanded && Top(w).depth == |w.trail|
    ensures RouteOk(g, root, Enter(g, w))
  {
    hide Waiting, StackOf, FinishedBefore, Met, Follow, Cyclic, Unvisited;
    var n, after := Top(w).node, Enter(g, w);
    TopOnRoute(g, root, w);
    StackEntered(g, w.trail, w.route, n);
    ChildBegins(g, root, w.order, w.route);
    forall k | 0 <= k < |after.trail| ensures Follow(g, root, after.route[..k]) == Some(after.trail[k]) {
      PartOfLonger(w.route, k);
      if k == |w.trail| {
        assert w.route[..k] == w.route;
      }
    }
  }

  lemma PartOfLonger(route: seq<nat>, k: nat)
    requires k <= |route|
    ensures (route + [0])[..k] == route[..k]
  {}

  lemma ChildBegins(g: Graph, root: Node, order: seq<Node>, route: seq<nat>)
    requires FinishedBefore(g, root, order, route)
    ensures FinishedBefore(g, root, order, route + [0])
  {
    var after := route + [0];
    forall k, i | 0 <= k < |after| && 0 <= i < after[k] ensures SiblingFinished(g, root, order, after[..k], i) {
      assert after[..k] == route[..k] && SiblingFinished(g, root, order, route[..k], i);
    }
  }

  /** The node that is finished now was met by its first route. */
  lemma FinishedIsMet(g: Graph, root: Node, w: Walk)
    requires RouteOk(g, root, w) && w.trail != [] && |w.trail| <= MAX_DEPTH + 1 && Topological(g, w.order) && !Cyclic(g, root)
    requires w.trail[|w.trail|-1] !in w.order
    ensures Met(g, root, w.trail[|w.trail|-1])
  {
    var t := |w.trail| - 1;
    PartFinished(g, root, w.order, w.route, t);
    UnfinishedIsFirst(g, root, w.order, w.route[..t]);
  }

  lemma FinishKeepsRoute(g: Graph, root: Node, w: Walk)
    requires RouteOk(g, root, w) && NodesOk(g, root, w) && w.pending != [] && Top(w).expanded && w.trail != []
    requires Top(w).node == w.trail[|w.trail|-1] && Top(w).depth == |w.trail| - 1
    ensures RouteOk(g, root, Finish(w))
  {
    hide Waiting, StackOf, FinishedBefore, Met, Follow, Cyclic, NodesOk;
    FinishKeepsMet(g, root, w);
    FinishKeepsPlace(g, root, w);
    FinishKeepsStackShape(g, root, w);
    var t, up := |w.trail| - 1, Up(w.route);
    AdvanceKeepsFront(up);
    forall k | 0 <= k < t ensures Follow(g, root, Advance(up)[..k]) == Some(w.trail[..t][k]) {
      assert Advance(up)[..k] == w.route[..k];
    }
  }

  lemma FinishKeepsMet(g: Graph, root: Node, w: Walk)
    requires RouteOk(g, root, w) && NodesOk(g, root, w) && w.trail != []
    ensures !Cyclic(g, root) ==> forall n | n in w.order + [w.trail[|w.trail|-1]] :: Met(g, root, n)
  {
    InTrailNotInOrder(w, w.trail[|w.trail|-1]);
    if !Cyclic(g, root) {
      FinishedIsMet(g, root, w);
    }
    hide Met, NodesOk, Cyclic, FinishedBefore, Follow;
  }

  lemma FinishKeepsPlace(g: Graph, root: Node, w: Walk)
    requires RouteOk(g, root, w) && w.trail != []
    ensures FinishedBefore(g, root, w.order + [w.trail[|w.trail|-1]], Advance(Up(w.route)))
  {
    hide StackOf, Met, Cyclic, Follow;
    var t, n, up := |w.trail| - 1, w.trail[|w.trail|-1], Up(w.route);
    PartFinished(g, root, w.order, w.route, t);
    MoreFinished(g, root, w.order, up, n);
    assert Follow(g, root, w.route[..t]) == Some(w.trail[t]) && (w.order + [n])[|w.order|] == n;
    AdvanceFinished(g, root, w.order + [n], up);
  }

  lemma FinishKeepsStackShape(g: Graph, root: Node, w: Walk)
    requires RouteOk(g, root, w) && w.pending != [] && Top(w).expanded && w.trail != []
    ensures Finish(w).pending == StackOf(g, Finish(w).trail, Finish(w).route)
  {
    hide Level, FinishedBefore, Met, Follow, Cyclic;
    var t := |w.trail| - 1;
    TopOfLevel(g, Waiting(g, w.trail[..t], w.route[..t]), w.trail[t], t, w.route[t]);
    StackAdvanced(g, w.trail[..t], w.route[..t]);
  }

  // ---- why the walk rejects ---------------------------------------------------------------------------

  /** A popped node that is still being visited closes a cycle. */
  lemma RevisitIsCycle(g: Graph, root: Node, w: Walk)
    requires WalkInv(g, root, w) && w.pending != [] && !Top(w).expanded
    requires Top(w).node in w.trail
    ensures Cyclic(g, root)
  {
    hide StackOk, CountersOk, RouteOk;
    UnexpandedTopIsChild(g, root, w);
    var path := w.trail + [Top(w).node];
    var i :| 0 <= i < |w.trail| && w.trail[i] == Top(w).node;
    forall k | 0 <= k < |path| - 1 ensures path[k+1] in Children(g, path[k]) {
      assert k < |w.trail| - 1 ==> w.trail[k+1] in Children(g, w.trail[k]);
    }
    assert PathFrom(g, root, path);
    assert path[i] == path[|path|-1];
    assert Repeats(path);
  }

  /** The path to a popped node that was not expanded. */
  lemma PathToTop(g: Graph, root: Node, w: Walk) returns (path: seq<Node>)
    requires WalkInv(g, root, w) && w.pending != [] && !Top(w).expanded
    ensures PathFrom(g, root, path) && |path| == Top(w).depth + 1 && path[|path|-1] == Top(w).node
  {
    hide StackOk, CountersOk, RouteOk;
    UnexpandedTopIsChild(g, root, w);
    path := w.trail + [Top(w).node];
    forall k | 0 <= k < |path| - 1 ensures path[k+1] in Children(g, path[k]) {
      assert k < |w.trail| - 1 ==> w.trail[k+1] in Children(g, w.trail[k]);
    }
  }

  lemma NearIsReachable(g: Graph, root: Node, n: Node)
    requires Near(g, root, n)
    ensures Reachable(g, root, n)
  {}

  /** Every node of the trail or the order is reachable. */
  lemma EnteredIsReachable(g: Graph, root: Node, w: Walk, n: Node)
    requires NodesOk(g, root, w) && (n in w.trail || n in w.order)
    ensures Reachable(g, root, n)
  {
    if n in w.order {
      NearIsReachable(g, root, n);
    } else {
      var i :| 0 <= i < |w.trail| && w.trail[i] == n;
      var path := w.trail[..i+1];
      assert PathFrom(g, root, path) && path[|path|-1] == n;
    }
  }

  ghost predicate AllReachable(g: Graph, root: Node, nodes: seq<Node>) {
    forall n | n in nodes :: Reachable(g, root, n)
  }

  /** No cycle, no unreadable group, and no more nodes and child references than allowed. */
  ghost predicate WithinCounts(g: Graph, root: Node) {
    && !Cyclic(g, root)
    && (forall n | Reachable(g, root, n) :: Readable(g, n))
    && (forall nodes: seq<Node> | Distinct(nodes) && AllReachable(g, root, nodes) ::
          |nodes| <= MAX_NODES && ReferencesOf(g, nodes) <= MAX_CHILD_REFERENCES)
  }

  /** The counts are kept, and no node is met too deep. */
  ghost predicate WithinLimits(g: Graph, root: Node) { WithinCounts(g, root) && MetWithinDepth(g, root) }

  lemma {:induction false} ReferencesAppend(g: Graph, a: seq<Node>, b: seq<Node>)
    ensures ReferencesOf(g, a + b) == ReferencesOf(g, a) + ReferencesOf(g, b)
  {
    if b == [] {
      assert a + b == a;
    } else {
      assert (a + b)[..|a + b|-1] == a + b[..|b|-1];
      ReferencesAppend(g, a, b[..|b|-1]);
    }
  }

  /** The counters stay within the limits of any graph that is within limits. */
  lemma CountersWithinLimits(g: Graph, root: Node, w: Walk)
    requires WalkInv(g, root, w) && WithinCounts(g, root)
    ensures |w.order| + |w.trail| <= MAX_NODES && w.references <= MAX_CHILD_REFERENCES
  {
    hide StackOk, RouteOk;
    var nodes := w.trail + w.order;
    forall n | n in nodes ensures Reachable(g, root, n) {
      EnteredIsReachable(g, root, w, n);
    }
    ReferencesAppend(g, w.trail, w.order);
  }

  // ---- what a finished walk means -----------------------------------------------------------------------

  /** Along a path inside a topological order the positions strictly decrease. */
  lemma {:induction false} PathDescends(g: Graph, order: seq<Node>, path: seq<Node>, i: nat)
    requires Topological(g, order) && Distinct(order)
    requires IsPath(g, path) && path[0] in order && i < |path|
    ensures path[i] in order
    ensures forall j, a, b | 0 <= j < i && 0 <= a < |order| && 0 <= b < |order| && order[a] == path[j] && order[b] == path[i] :: b < a
  {
    if i > 0 {
      PathDescends(g, order, path, i - 1);
      var k :| 0 <= k < |order| && order[k] == path[i-1];
      assert path[i] in Children(g, path[i-1]);
      assert path[i] in order[..k];
      var b :| 0 <= b < k && order[b] == path[i];
    }
  }

  lemma OrderedIsAcyclic(g: Graph, root: Node, order: seq<Node>)
    requires Topological(g, order) && Distinct(order) && root in order
    ensures !Cyclic(g, root)
    ensures forall n | Reachable(g, root, n) :: n in order
  {
    forall path | PathFrom(g, root, path) ensures !Repeats(path) && path[|path|-1] in order {
      PathDescends(g, order, path, |path| - 1);
      forall i, j | 0 <= i < j < |path| ensures path[i] != path[j] {
        PathDescends(g, order, path, i);
        PathDescends(g, order, path, j);
        var a :| 0 <= a < |order| && order[a] == path[i];
      }
    }
  }

  // ---- the redacted copy --------------------------------------------------------------------------------

  /** A replacement object: RuntimeError, BaseException, ExceptionGroup or BaseExceptionGroup, all "<redacted>". */
  class SafeException {
    const isException: bool
    const isGroup: bool
    const members: seq<SafeException>

    constructor (isException: bool, isGroup: bool, members: seq<SafeException>)
      ensures this.isException == isException && this.isGroup == isGroup && this.members == members
    {
      this.isException, this.isGroup, this.members := isException, isGroup, members;
    }
  }

  type Replacements = map<Node, SafeException>

  predicate AllExceptions(members: seq<SafeException>) {
    forall i | 0 <= i < |members| :: members[i].isException
  }

  /** A member of a copied group: the child's own copy, or a fresh leaf where an ExceptionGroup cannot hold it. */
  predicate MemberCopied(groupIsException: bool, member: SafeException, child: SafeException) {
    if groupIsException && !child.isException then member.isException && !member.isGroup else member == child
  }

  /** The copy of a node has its kind and its children's copies, in order. */
  predicate Copied(shape: Shape, copy: SafeException, copies: Replacements) {
    match shape
    case Leaf(isException) => !copy.isGroup && copy.isException == isException && copy.members == []
    case Group(isException, members) =>
      && copy.isGroup
      && members.Some? && |copy.members| == |members.value|
      && copy.isException == (isException || AllExceptions(copy.members))
      && forall i | 0 <= i < |members.value| ::
           members.value[i] in copies && MemberCopied(isException, copy.members[i], copies[members.value[i]])
  }

  /** Every replaced node has a faithful copy of its own. */
  ghost predicate CopiesFaithful(g: Graph, copies: Replacements) {
    && (forall n | n in copies :: n in g && Readable(g, n) && Copied(g[n], copies[n], copies))
    && (forall a, b | a in copies && b in copies && a != b :: copies[a] != copies[b])
  }

  lemma AllAppend(members: seq<SafeException>, child: SafeException)
    ensures AllExceptions(members + [child]) <==> AllExceptions(members) && child.isException
  {
    var after := members + [child];
    assert after[|members|] == child;
    assert forall i | 0 <= i < |members| :: after[i] == members[i];
  }

  /** `_build_safe_exception_group` and the two leaf kinds. */
  method BuildSafe(g: Graph, n: Node, children: seq<Node>, copies: Replacements) returns (copy: SafeException)
    requires n in g && Readable(g, n) && children == Children(g, n)
    requires forall c | c in Children(g, n) :: c in copies
    ensures fresh(copy)
    ensures Copied(g[n], copy, copies)
  {
    if g[n].Leaf? {
      copy := new SafeException(g[n].isException, false, []);
      return;
    }
    var members: seq<SafeException> := [];
    var all := true;
    for i := 0 to |children|
      invariant |members| == i
      invariant all == AllExceptions(members)
      invariant forall k | 0 <= k < i :: MemberCopied(g[n].isException, members[k], copies[children[k]])
    {
      assert children[i] in Children(g, n);
      var child := copies[children[i]];
      if g[n].isException && !child.isException {
        child := new SafeException(true, false, []);
      }
      AllAppend(members, child);
      members := members + [child];
      all := all && child.isException;
    }
    assert forall k | 0 <= k < |children| :: children[k] in Children(g, n);
    copy := new SafeException(g[n].isException || all, true, members);
  }

  lemma CopiesStay(g: Graph, copies: Replacements, n: Node, copy: SafeException)
    requires CopiesFaithful(g, copies) && n !in copies
    requires n in g && Readable(g, n) && Copied(g[n], copy, copies)
    requires forall m | m in copies :: copies[m] != copy
    ensures CopiesFaithful(g, copies[n := copy])
  {
    var after := copies[n := copy];
    forall m | m in after ensures Copied(g[m], after[m], after) {
      assert m in copies ==> Copied(g[m], copies[m], copies);
    }
  }

  /** The loop's sets and dictionaries, against the walk. */
  ghost predicate Tracks(g: Graph, w: Walk, visiting: set<Node>, discovered: set<Node>, replacements: Replacements,
                         groupChildren: map<Node, seq<Node>>)
  {
    && (forall n :: n in visiting <==> n in w.trail)
    && (forall n :: n in discovered <==> n in w.trail || n in w.order)
    && |discovered| == |w.trail| + |w.order|
    && (forall n :: n in replacements <==> n in w.order)
    && (forall n | n in w.trail && n in g && g[n].Group? :: n in groupChildren && groupChildren[n] == Children(g, n))
  }

  /** A popped marker has everything its copy needs. */
  lemma TopIsReady(g: Graph, root: Node, w: Walk, visiting: set<Node>, discovered: set<Node>, replacements: Replacements,
                   groupChildren: map<Node, seq<Node>>)
    requires WalkInv(g, root, w) && w.pending != [] && Top(w).expanded
    requires Tracks(g, w, visiting, discovered, replacements, groupChildren)
    ensures Top(w).node in g && Readable(g, Top(w).node) && Top(w).node !in replacements
    ensures g[Top(w).node].Group? ==> Top(w).node in groupChildren && groupChildren[Top(w).node] == Children(g, Top(w).node)
    ensures forall c | c in Children(g, Top(w).node) :: c in replacements
  {
    ExpandedTopIsLast(g, root, w);
    InTrailNotInOrder(w, Top(w).node);
  }

  lemma NotYetDiscovered(g: Graph, w: Walk, visiting: set<Node>, discovered: set<Node>, replacements: Replacements,
                         groupChildren: map<Node, seq<Node>>, n: Node)
    requires Tracks(g, w, visiting, discovered, replacements, groupChildren)
    requires n !in visiting && n !in replacements
    ensures n !in discovered && |discovered + {n}| == |discovered| + 1
  {}

  lemma TracksFinish(g: Graph, w: Walk, visiting: set<Node>, discovered: set<Node>, replacements: Replacements,
                     groupChildren: map<Node, seq<Node>>, copy: SafeException)
    requires Tracks(g, w, visiting, discovered, replacements, groupChildren)
    requires w.trail != [] && w.pending != [] && Distinct(w.trail + w.order) && Top(w).node == w.trail[|w.trail|-1]
    ensures Tracks(g, Finish(w), visiting - {Top(w).node}, discovered, replacements[Top(w).node := copy], groupChildren)
  {
    TrailDrops(w);
  }

  lemma TracksEnter(g: Graph, w: Walk, visiting: set<Node>, discovered: set<Node>, replacements: Replacements,
                    groupChildren: map<Node, seq<Node>>, n: Node)
    requires Tracks(g, w, visiting, discovered, replacements, groupChildren)
    requires w.pending != [] && Top(w).node == n && n !in w.trail && n !in w.order && Readable(g, n)
    ensures Tracks(g, Enter(g, w), visiting + {n}, discovered + {n}, replacements,
                   if g[n].Group? then groupChildren[n := Children(g, n)] else groupChildren)
  {
    forall m ensures m in Enter(g, w).trail <==> m in w.trail || m == n {}
  }

  lemma ReachesTop(g: Graph, root: Node, w: Walk)
    requires WalkInv(g, root, w) && w.pending != [] && !Top(w).expanded
    requires root in g && Closed(g)
    ensures Reachable(g, root, Top(w).node) && Top(w).node in g
  {
    var path := PathToTop(g, root, w);
    PathStaysInside(g, path, |path| - 1);
  }

  ghost predicate Closed(g: Graph) { forall n, c | n in g && c in Children(g, n) :: c in g }

  /** A full set of discovered nodes, or an unreadable one: the graph is not within limits. */
  lemma DiscoveryRejects(g: Graph, root: Node, w: Walk)
    requires WalkInv(g, root, w) && w.pending != [] && !Top(w).expanded && root in g && Closed(g)
    requires Top(w).node !in w.order && Top(w).node !in w.trail
    requires Top(w).depth <= MAX_DEPTH
    requires |w.order| + |w.trail| == MAX_NODES || !Readable(g, Top(w).node)
    ensures !WithinCounts(g, root)
  {
    ReachesTop(g, root, w);
    if Readable(g, Top(w).node) && WithinCounts(g, root) {
      EnterKeeps(g, root, w);
      CountersWithinLimits(g, root, Enter(g, w));
      assert false;
    }
  }

  /** What a returned copy stands for. */
  ghost predicate SafeCopy(g: Graph, root: Node, copies: Replacements, order: seq<Node>) {
    && !Cyclic(g, root)
    && root in copies
    && MetWithinDepth(g, root)
    && (forall n | Reachable(g, root, n) :: n in copies && Near(g, root, n))
    && CopiesFaithful(g, copies)
    && Distinct(order) && (forall n :: n in order <==> n in copies)
  }

  lemma MarkerWaits(w: Walk)
    requires Marked(w.trail, w.pending) && w.trail != []
    ensures w.pending != []
  {
    assert Entry(w.trail[0], 0, true) in w.pending;
  }

  lemma EmptyStackIsDone(g: Graph, root: Node, w: Walk, copies: Replacements)
    requires WalkInv(g, root, w) && w.pending == [] && CopiesFaithful(g, copies)
    requires forall n :: n in copies <==> n in w.order
    ensures SafeCopy(g, root, copies, w.order) && w.trail == [] && w.references == ReferencesOf(g, w.order)
    ensures w.steps == 1 + w.references + |w.order|
  {
    if w.trail != [] {
      MarkerWaits(w);
      assert false;
    }
    assert w.trail + w.order == w.order;
    OrderedIsAcyclic(g, root, w.order);
    AllMet(g, root, w.order);
  }

  /** Where every node is met within the depth limit no first route is longer. */
  lemma AllMet(g: Graph, root: Node, order: seq<Node>)
    requires (forall n | Reachable(g, root, n) :: n in order) && forall n | n in order :: Met(g, root, n)
    ensures MetWithinDepth(g, root)
  {
    forall route | IsFirst(g, root, route) ensures |route| <= MAX_DEPTH {
      var n, path := Follow(g, root, route).value, PathOf(g, root, route);
      assert Reachable(g, root, n);
      var met :| IsFirst(g, root, met) && Follow(g, root, met) == Some(n) && |met| <= MAX_DEPTH;
      OneFirstRoute(g, root, route, met);
    }
  }

  /** The invariant of the whole loop. */
  ghost predicate LoopInv(g: Graph, root: Node, w: Walk, pending: seq<Entry>, visiting: set<Node>, discovered: set<Node>,
                          replacements: Replacements, groupChildren: map<Node, seq<Node>>, references: nat, steps: nat)
  {
    && WalkInv(g, root, w)
    && w.pending == pending && w.references == references && w.steps == steps
    && Tracks(g, w, visiting, discovered, replacements, groupChildren)
    && |discovered| <= MAX_NODES && references <= MAX_CHILD_REFERENCES
    && CopiesFaithful(g, replacements)
  }

  lemma LoopStart(g: Graph, root: Node)
    ensures LoopInv(g, root, Start(root), [Entry(root, 0, false)], {}, {}, map[], map[], 0, 0)
  {
    StartOk(g, root);
  }

  lemma LoopSkip(g: Graph, root: Node, w: Walk, pending: seq<Entry>, visiting: set<Node>, discovered: set<Node>,
                 replacements: Replacements, groupChildren: map<Node, seq<Node>>, references: nat, steps: nat)
    requires LoopInv(g, root, w, pending, visiting, discovered, replacements, groupChildren, references, steps)
    requires pending != [] && Top(w).node in replacements
    ensures LoopInv(g, root, Skip(w), pending[..|pending|-1], visiting, discovered, replacements, groupChildren, references,
                    steps + 1)
  {
    hide WalkInv;
    SkipKeeps(g, root, w);
  }

  lemma LoopFinish(g: Graph, root: Node, w: Walk, pending: seq<Entry>, visiting: set<Node>, discovered: set<Node>,
                   replacements: Replacements, groupChildren: map<Node, seq<Node>>, references: nat, steps: nat,
                   copy: SafeException)
    requires LoopInv(g, root, w, pending, visiting, discovered, replacements, groupChildren, references, steps)
    requires pending != [] && Top(w).expanded
    requires CopiesFaithful(g, replacements[Top(w).node := copy])
    ensures w.trail != []
    ensures LoopInv(g, root, Finish(w), pending[..|pending|-1], visiting - {Top(w).node}, discovered,
                    replacements[Top(w).node := copy], groupChildren, references, steps + 1)
  {
    hide RouteOk, StackOk, CountersOk, CopiesFaithful;
    ExpandedTopIsLast(g, root, w);
    TracksFinish(g, w, visiting, discovered, replacements, groupChildren, copy);
    FinishKeeps(g, root, w);
  }

  lemma LoopEnter(g: Graph, root: Node, w: Walk, pending: seq<Entry>, visiting: set<Node>, discovered: set<Node>,
                  replacements: Replacements, groupChildren: map<Node, seq<Node>>, references: nat, steps: nat)
    requires LoopInv(g, root, w, pending, visiting, discovered, replacements, groupChildren, references, steps)
    requires pending != [] && !Top(w).expanded && Top(w).node !in replacements && Top(w).node !in visiting
    requires Readable(g, Top(w).node) && |discovered| < MAX_NODES && Top(w).depth <= MAX_DEPTH
    ensures references + |Children(g, Top(w).node)| > MAX_CHILD_REFERENCES ==> !WithinCounts(g, root)
    ensures references + |Children(g, Top(w).node)| <= MAX_CHILD_REFERENCES ==>
              var n := Top(w).node;
              LoopInv(g, root, Enter(g, w),
                      pending[..|pending|-1] + [Entry(n, Top(w).depth, true)] + Unvisited(Children(g, n), Top(w).depth + 1),
                      visiting + {n}, discovered + {n}, replacements,
                      (if g[n].Group? then groupChildren[n := Children(g, n)] else groupChildren),
                      references + |Children(g, n)|, steps + 1)
    ensures Top(w).node !in discovered
  {
    hide WalkInv;
    TracksEnter(g, w, visiting, discovered, replacements, groupChildren, Top(w).node);
    EnterKeeps(g, root, w);
    if references + |Children(g, Top(w).node)| > MAX_CHILD_REFERENCES {
      if WithinCounts(g, root) {
        CountersWithinLimits(g, root, Enter(g, w));
        assert false;
      }
    }
  }

  lemma LoopEnds(g: Graph, root: Node, w: Walk, visiting: set<Node>, discovered: set<Node>, replacements: Replacements,
                 groupChildren: map<Node, seq<Node>>, references: nat, steps: nat)
    requires LoopInv(g, root, w, [], visiting, discovered, replacements, groupChildren, references, steps)
    ensures SafeCopy(g, root, replacements, w.order)
    ensures |w.order| <= MAX_NODES && ReferencesOf(g, w.order) <= MAX_CHILD_REFERENCES
    ensures steps == 1 + ReferencesOf(g, w.order) + |w.order|
  {
    EmptyStackIsDone(g, root, w, replacements);
  }

  /** What the loop itself looks at. */
  lemma LoopFacts(g: Graph, root: Node, w: Walk, pending: seq<Entry>, visiting: set<Node>, discovered: set<Node>,
                  replacements: Replacements, groupChildren: map<Node, seq<Node>>, references: nat, steps: nat)
    requires LoopInv(g, root, w, pending, visiting, discovered, replacements, groupChildren, references, steps)
    ensures w.pending == pending && |discovered| <= MAX_NODES && references <= MAX_CHILD_REFERENCES
    ensures pending != [] ==> steps + 1 <= 1 + MAX_CHILD_REFERENCES + MAX_NODES
  {
    if pending != [] {
      StepsBounded(g, w);
    }
  }

  lemma LoopRejects(g: Graph, root: Node, w: Walk, pending: seq<Entry>, visiting: set<Node>, discovered: set<Node>,
                    replacements: Replacements, groupChildren: map<Node, seq<Node>>, references: nat, steps: nat)
    requires LoopInv(g, root, w, pending, visiting, discovered, replacements, groupChildren, references, steps)
    requires w.pending != [] && !Top(w).expanded && Top(w).node !in replacements
    requires Top(w).depth > MAX_DEPTH || Top(w).node in visiting
    ensures !WithinLimits(g, root)
  {
    hide WalkInv, WithinLimits;
    RejectionJustified(g, root, w);
  }

  lemma LoopDiscovers(g: Graph, root: Node, w: Walk, pending: seq<Entry>, visiting: set<Node>, discovered: set<Node>,
                      replacements: Replacements, groupChildren: map<Node, seq<Node>>, references: nat, steps: nat)
    requires LoopInv(g, root, w, pending, visiting, discovered, replacements, groupChildren, references, steps)
    requires root in g && Closed(g)
    requires w.pending != [] && !Top(w).expanded && Top(w).depth <= MAX_DEPTH
    requires Top(w).node !in visiting && Top(w).node !in replacements
    ensures Top(w).node in g && Top(w).node !in discovered && |discovered + {Top(w).node}| == |discovered| + 1
    ensures |discovered| == MAX_NODES || !Readable(g, Top(w).node) ==> !WithinLimits(g, root)
  {
    hide WalkInv, WithinCounts, CopiesFaithful;
    ReachesTop(g, root, w);
    NotYetDiscovered(g, w, visiting, discovered, replacements, groupChildren, Top(w).node);
    if |discovered| == MAX_NODES || !Readable(g, Top(w).node) {
      DiscoveryRejects(g, root, w);
    }
  }

  /** The branch for a node whose subtree is done: it gets its replacement. */
  method Replace(g: Graph, root: Node, ghost w: Walk, pending: seq<Entry>, visiting: set<Node>, ghost discovered: set<Node>,
                 replacements: Replacements, groupChildren: map<Node, seq<Node>>, ghost references: nat, ghost steps: nat)
    returns (result: Replacements)
    requires LoopInv(g, root, w, pending, visiting, discovered, replacements, groupChildren, references, steps)
    requires pending != [] && w.pending == pending && Top(w).expanded
    ensures w.trail != []
    ensures LoopInv(g, root, Finish(w), pending[..|pending|-1], visiting - {Top(w).node}, discovered, result, groupChildren,
                    references, steps + 1)
  {
    hide WalkInv;
    var current := pending[|pending|-1].node;
    TopIsReady(g, root, w, visiting, discovered, replacements, groupChildren);
    var children := if g[current].Group? then groupChildren[current] else [];
    var safe := BuildSafe(g, current, children, replacements);
    CopiesStay(g, replacements, current, safe);
    LoopFinish(g, root, w, pending, visiting, discovered, replacements, groupChildren, references, steps, safe);
    result := replacements[current := safe];
  }

  /** The branch for a node met on the way down: it is entered, or the graph is rejected. */
  method Visit(g: Graph, root: Node, ghost w: Walk, pending: seq<Entry>, visiting: set<Node>, discovered: set<Node>,
               ghost replacements: Replacements, groupChildren: map<Node, seq<Node>>, references: nat, ghost steps: nat)
    returns (entered: bool, pending': seq<Entry>, visiting': set<Node>, discovered': set<Node>,
             groupChildren': map<Node, seq<Node>>, references': nat)
    requires LoopInv(g, root, w, pending, visiting, discovered, replacements, groupChildren, references, steps)
    requires root in g && Closed(g)
    requires pending != [] && w.pending == pending && !Top(w).expanded && Top(w).node !in replacements
    ensures !entered ==> !WithinLimits(g, root)
    ensures entered ==>
              && LoopInv(g, root, Enter(g, w), pending', visiting', discovered', replacements, groupChildren', references', steps + 1)
              && |discovered'| == |discovered| + 1
  {
    hide LoopInv, WithinCounts, MetWithinDepth, Closed, Enter;
    entered, pending', visiting', discovered', groupChildren', references' := false, [], {}, {}, map[], 0;
    var entry := pending[|pending|-1];
    var current := entry.node;
    if entry.depth > MAX_DEPTH || current in visiting {
      LoopRejects(g, root, w, pending, visiting, discovered, replacements, groupChildren, references, steps);
      return;
    }
    LoopDiscovers(g, root, w, pending, visiting, discovered, replacements, groupChildren, references, steps);
    LoopFacts(g, root, w, pending, visiting, discovered, replacements, groupChildren, references, steps);
    discovered' := discovered + {current};
    if |discovered'| > MAX_NODES {
      return;
    }
    visiting' := visiting + {current};
    pending' := pending[..|pending|-1] + [Entry(current, entry.depth, true)];
    groupChildren', references' := groupChildren, references;
    if g[current].Group? {
      if !ReadableGroup(g[current]) {
        return;
      }
      var children := g[current].members.value;
      groupChildren' := groupChildren[current := children];
      references' := references + |children|;
      LoopEnter(g, root, w, pending, visiting, discovered, replacements, groupChildren, references, steps);
      if references' > MAX_CHILD_REFERENCES {
        return;
      }
      pending' := PushChildren(pending', children, entry.depth + 1);
    } else {
      LoopEnter(g, root, w, pending, visiting, discovered, replacements, groupChildren, references, steps);
      assert Children(g, current) == [] && pending' + Unvisited([], entry.depth + 1) == pending';
    }
    entered := true;
  }

  // ---- what a copy says about the graph ---------------------------------------------------------------------

  /** Distinct nodes taken from a list of distinct nodes are no more, and have no more children, than the list. */
  lemma {:induction false} PartOfOrder(g: Graph, nodes: seq<Node>, order: seq<Node>)
    requires Distinct(nodes) && forall n | n in nodes :: n in order
    ensures |nodes| <= |order| && ReferencesOf(g, nodes) <= ReferencesOf(g, order)
  {
    if nodes != [] {
      var front, last := nodes[..|nodes|-1], nodes[|nodes|-1];
      assert last in nodes;
      var i :| 0 <= i < |order| && order[i] == last;
      var others := order[..i] + order[i+1..];
      forall n | n in front ensures n in others {
        assert n in nodes;
        var k :| 0 <= k < |order| && order[k] == n;
        assert n != last;
        assert others[if k < i then k else k - 1] == n;
      }
      PartOfOrder(g, front, others);
      assert order == order[..i] + [last] + order[i+1..];
      ReferencesAppend(g, order[..i], order[i+1..]);
      ReferencesAppend(g, order[..i] + [last], order[i+1..]);
      ReferencesAppend(g, order[..i], [last]);
      OneReference(g, last);
    }
  }

  lemma OneReference(g: Graph, n: Node)
    ensures ReferencesOf(g, [n]) == |Children(g, n)|
  {
    assert [n][..0] == [];
  }

  /** A graph that was copied is within the counts. */
  lemma CopiedIsWithinCounts(g: Graph, root: Node, copies: Replacements, order: seq<Node>)
    requires SafeCopy(g, root, copies, order)
    requires |order| <= MAX_NODES && ReferencesOf(g, order) <= MAX_CHILD_REFERENCES
    ensures WithinCounts(g, root)
  {
    forall nodes: seq<Node> | Distinct(nodes) && AllReachable(g, root, nodes)
      ensures |nodes| <= MAX_NODES && ReferencesOf(g, nodes) <= MAX_CHILD_REFERENCES
    {
      forall n | n in nodes ensures n in order {
        assert Reachable(g, root, n);
      }
      PartOfOrder(g, nodes, order);
    }
  }

  /**
   `_safe_exception_graph`; a null result stands for the RuntimeError it raises. `copies` is the
   `replacements` dictionary, `order` the order in which it was filled, `steps` the loop's iterations.
   A copy is returned exactly when the graph has no cycle, is readable, keeps the limits on nodes and
   references, and the first route to each of its nodes keeps the depth limit; a longer path may lead there.
   */
  method SafeExceptionGraph(g: Graph, root: Node)
    returns (copy: SafeException?, ghost copies: Replacements, ghost order: seq<Node>, steps: nat)
    requires root in g && Closed(g)
    ensures copy != null <==> WithinCounts(g, root) && MetWithinDepth(g, root)
    ensures copy != null ==> SafeCopy(g, root, copies, order) && copy == copies[root]
    ensures copy != null ==>
              && |order| <= MAX_NODES && ReferencesOf(g, order) <= MAX_CHILD_REFERENCES
              && steps == 1 + ReferencesOf(g, order) + |order|
    ensures steps <= 1 + MAX_CHILD_REFERENCES + MAX_NODES
  {
    hide LoopInv, WithinCounts, MetWithinDepth, Closed, Enter, Skip, Finish, CopiesFaithful;
    var pending: seq<Entry> := [Entry(root, 0, false)];
    var visiting: set<Node>, discovered: set<Node> := {}, {};
    var replacements: Replacements := map[];
    var groupChildren: map<Node, seq<Node>> := map[];
    var references: nat := 0;
    steps := 0;
    copies, order := map[], [];
    ghost var w := Start(root);
    LoopStart(g, root);
    while pending != []
      invariant LoopInv(g, root, w, pending, visiting, discovered, replacements, groupChildren, references, steps)
      decreases MAX_NODES - |discovered|, |pending|
    {
      LoopFacts(g, root, w, pending, visiting, discovered, replacements, groupChildren, references, steps);
      var entry := pending[|pending|-1];
      var current := entry.node;
      if current in replacements {
        LoopSkip(g, root, w, pending, visiting, discovered, replacements, groupChildren, references, steps);
        w := Skip(w);
        pending := pending[..|pending|-1];
        steps := steps + 1;
        continue;
      }
      if entry.expanded {
        replacements := Replace(g, root, w, pending, visiting, discovered, replacements, groupChildren, references, steps);
        w := Finish(w);
        visiting := visiting - {current};
        pending := pending[..|pending|-1];
        steps := steps + 1;
        continue;
      }
      var entered: bool;
      entered, pending, visiting, discovered, groupChildren, references :=
        Visit(g, root, w, pending, visiting, discovered, replacements, groupChildren, references, steps);
      steps := steps + 1;
      if !entered {
        return null, map[], [], steps;
      }
      w := Enter(g, w);
    }
    LoopEnds(g, root, w, visiting, discovered, replacements, groupChildren, references, steps);
    CopiedIsWithinCounts(g, root, replacements, w.order);
    copies, order := replacements, w.order;
    copy := replacements[root];
  }

  /** `for child in reversed(children): pending.append((child, depth + 1, False))`. */
  method PushChildren(pending: seq<Entry>, children: seq<Node>, depth: nat) returns (result: seq<Entry>)
    ensures result == pending + Unvisited(children, depth)
  {
    result := pending;
    var i := |children|;
    assert children[i..] == [];
    while i > 0
      invariant 0 <= i <= |children|
      invariant result == pending + Unvisited(children[i..], depth)
    {
      assert children[i-1..][1..] == children[i..];
      i := i - 1;
      result := result + [Entry(children[i], depth, false)];
    }
    assert children[0..] == children;
  }

  /** Too deep, or back to a node being visited: the graph is not within limits. */
  lemma RejectionJustified(g: Graph, root: Node, w: Walk)
    requires WalkInv(g, root, w) && w.pending != [] && !Top(w).expanded
    requires Top(w).node !in w.order && (Top(w).depth > MAX_DEPTH || Top(w).node in w.trail)
    ensures !WithinLimits(g, root)
  {
    if Top(w).node in w.trail {
      RevisitIsCycle(g, root, w);
    } else if !Cyclic(g, root) {
      UnexpandedTopIsChild(g, root, w);
      TopOnRoute(g, root, w);
      UnfinishedIsFirst(g, root, w.order, w.route);
    }
    hide StackOk, CountersOk, NodesOk, RouteOk;
  }

  lemma {:induction false} PathStaysInside(g: Graph, path: seq<Node>, i: nat)
    requires IsPath(g, path) && path[0] in g && i < |path|
    requires Closed(g)
    ensures path[i] in g
  {
    if i > 0 {
      PathStaysInside(g, path, i - 1);
    }
  }

  lemma StepsBounded(g: Graph, w: Walk)
    requires CountersOk(g, w) && w.pending != []
    requires w.references <= MAX_CHILD_REFERENCES && |w.trail| + |w.order| <= MAX_NODES
    ensures w.steps + 1 <= 1 + MAX_CHILD_REFERENCES + MAX_NODES
  {}

  lemma TrailDrops(w: Walk)
    requires w.trail != [] && w.pending != [] && Distinct(w.trail + w.order)
    ensures forall n :: n in w.trail[..|w.trail|-1] <==> n in w.trail && n != w.trail[|w.trail|-1]
  {
    var t := |w.trail| - 1;
    forall i | 0 <= i < t ensures w.trail[i] != w.trail[t] {
      assert (w.trail + w.order)[i] != (w.trail + w.order)[t];
    }
  }
}
