/** The two graph searches of the benchmark oracle: breadth-first shortest distance and the end of a chain. */
module Oracle {

  type Node = string
  type Edge = (Node, Node)

  // ---------- Distances ----------

  /** Whether `node` is reached from `start` by a walk of exactly n edges. */
  ghost predicate Walk(edges: seq<Edge>, start: Node, node: Node, n: nat)
    decreases n
  {
    if n == 0 then node == start
    else exists i :: 0 <= i < |edges| && edges[i].1 == node && Walk(edges, start, edges[i].0, n - 1)
  }

  /** A list of nodes along edges. */
  ghost predicate IsPath(edges: seq<Edge>, path: seq<Node>) {
    path != [] && forall k :: 0 <= k < |path| - 1 ==> (path[k], path[k + 1]) in edges
  }

  /** Walks of n edges are the paths of n + 1 nodes. */
  lemma {:induction false} WalkIsPath(edges: seq<Edge>, start: Node, node: Node, n: nat)
    ensures Walk(edges, start, node, n) <==>
            exists path :: IsPath(edges, path) && |path| == n + 1 && path[0] == start && path[n] == node
  {
    if Walk(edges, start, node, n) {
      var path := PathOf(edges, start, node, n);
    }
    if exists path :: IsPath(edges, path) && |path| == n + 1 && path[0] == start && path[n] == node {
      var path :| IsPath(edges, path) && |path| == n + 1 && path[0] == start && path[n] == node;
      WalkAlong(edges, path, n);
    }
  }

  lemma {:induction false} PathOf(edges: seq<Edge>, start: Node, node: Node, n: nat) returns (path: seq<Node>)
    requires Walk(edges, start, node, n)
    ensures IsPath(edges, path) && |path| == n + 1 && path[0] == start && path[n] == node
    decreases n
  {
    if n == 0 {
      path := [start];
    } else {
      var i :| 0 <= i < |edges| && edges[i].1 == node && Walk(edges, start, edges[i].0, n - 1);
      var before := PathOf(edges, start, edges[i].0, n - 1);
      path := before + [node];
      assert (path[n - 1], path[n]) == edges[i];
    }
  }

  lemma {:induction false} WalkAlong(edges: seq<Edge>, path: seq<Node>, n: nat)
    requires IsPath(edges, path) && n < |path|
    ensures Walk(edges, path[0], path[n], n)
  {
    if n > 0 {
      WalkAlong(edges, path, n - 1);
      assert (path[n - 1], path[n - 1 + 1]) in edges;
      var i :| 0 <= i < |edges| && edges[i] == (path[n - 1], path[n]);
      assert edges[i].1 == path[n] && edges[i].0 == path[n - 1];
    }
  }

  ghost predicate Reachable(edges: seq<Edge>, start: Node, node: Node) {
    exists n: nat :: Walk(edges, start, node, n)
  }

  ghost predicate Distance(edges: seq<Edge>, start: Node, node: Node, d: nat) {
    Walk(edges, start, node, d) && forall n: nat :: n < d ==> !Walk(edges, start, node, n)
  }

  type Entry = (Node, nat)

  /** The search queue: distinct nodes with their distances, in order of distance, at most one layer ahead of `at`. */
  ghost predicate QueueOk(edges: seq<Edge>, start: Node, queue: seq<Entry>, at: nat) {
    && queue != [] && queue[0] == (start, 0) && at <= |queue|
    && (forall i :: 0 <= i < |queue| ==> Distance(edges, start, queue[i].0, queue[i].1))
    && (forall i, j :: 0 <= i < j < |queue| ==> queue[i].0 != queue[j].0 && queue[i].1 <= queue[j].1)
    && (at < |queue| ==> forall j :: 0 <= j < |queue| ==> queue[j].1 <= queue[at].1 + 1)
  }

  ghost predicate Holds(seen: set<Node>, queue: seq<Entry>) {
    forall v :: v in seen <==> exists i :: 0 <= i < |queue| && queue[i].0 == v
  }

  /** The first n edges that leave `node` lead to seen nodes. */
  ghost predicate Expanded(edges: seq<Edge>, seen: set<Node>, node: Node, n: nat)
    requires n <= |edges|
  {
    forall e :: 0 <= e < n && edges[e].0 == node ==> edges[e].1 in seen
  }

  /** Everything within distance d has been seen. */
  ghost predicate Layered(edges: seq<Edge>, start: Node, seen: set<Node>, d: nat) {
    forall v: Node, n: nat :: n <= d && Walk(edges, start, v, n) ==> v in seen
  }

  function Nodes(edges: seq<Edge>, start: Node): set<Node> {
    {start} + set e | e in edges :: e.1
  }

  /** Once the entries before `at` are expanded, the layer of entry `at` is complete. */
  lemma NextLayer(edges: seq<Edge>, start: Node, queue: seq<Entry>, seen: set<Node>, at: nat)
    requires QueueOk(edges, start, queue, at) && at < |queue| && Holds(seen, queue)
    requires at > 0 && Layered(edges, start, seen, queue[at - 1].1)
    requires forall i :: 0 <= i < at ==> Expanded(edges, seen, queue[i].0, |edges|)
    requires queue[at].1 <= queue[at - 1].1 + 1
    ensures Layered(edges, start, seen, queue[at].1)
  {
    var d := queue[at].1;
    forall v: Node, n: nat | n <= d && Walk(edges, start, v, n)
      ensures v in seen
    {
      if n > queue[at - 1].1 {
        var e :| 0 <= e < |edges| && edges[e].1 == v && Walk(edges, start, edges[e].0, n - 1);
        assert edges[e].0 in seen;
        var i :| 0 <= i < |queue| && queue[i].0 == edges[e].0;
        assert queue[i].1 <= n - 1 < d;
        assert i < at;
        assert Expanded(edges, seen, queue[i].0, |edges|);
      }
    }
  }

  /** A closed set of seen nodes contains everything reachable. */
  lemma {:induction false} ClosedSeen(edges: seq<Edge>, start: Node, queue: seq<Entry>, seen: set<Node>, v: Node,
                                      n: nat)
    requires Holds(seen, queue) && start in seen && Walk(edges, start, v, n)
    requires forall i :: 0 <= i < |queue| ==> Expanded(edges, seen, queue[i].0, |edges|)
    ensures v in seen
    decreases n
  {
    if n > 0 {
      var e :| 0 <= e < |edges| && edges[e].1 == v && Walk(edges, start, edges[e].0, n - 1);
      ClosedSeen(edges, start, queue, seen, edges[e].0, n - 1);
      var i :| 0 <= i < |queue| && queue[i].0 == edges[e].0;
      assert Expanded(edges, seen, queue[i].0, |edges|);
    }
  }

  /** A node not seen when its layer was complete is one edge further. */
  lemma {:induction false} NewDistance(edges: seq<Edge>, start: Node, seen: set<Node>, node: Node, d: nat, e: nat)
    requires Layered(edges, start, seen, d) && Walk(edges, start, node, d)
    requires e < |edges| && edges[e].0 == node && edges[e].1 !in seen
    ensures Distance(edges, start, edges[e].1, d + 1)
  {
    assert Walk(edges, start, edges[e].1, d + 1);
  }

  lemma Appended(queue: seq<Entry>, seen: set<Node>, node: Node, d: nat)
    requires Holds(seen, queue) && node !in seen
    ensures Holds(seen + {node}, queue + [(node, d)])
    ensures forall i :: 0 <= i < |queue| ==> queue[i].0 != node
  {
    var longer := queue + [(node, d)];
    assert forall i :: 0 <= i < |queue| ==> queue[i].0 in seen;
    forall v
      ensures v in seen + {node} <==> exists i :: 0 <= i < |longer| && longer[i].0 == v
    {
      if v == node {
        assert longer[|queue|].0 == v;
      } else if v in seen {
        var i :| 0 <= i < |queue| && queue[i].0 == v;
        assert longer[i].0 == v;
      }
    }
  }

  /** A new node one edge beyond the entry at `at` keeps the queue in order. */
  lemma Discovered(edges: seq<Edge>, start: Node, queue: seq<Entry>, seen: set<Node>, at: nat, node: Node)
    requires QueueOk(edges, start, queue, at) && at < |queue| && Holds(seen, queue)
    requires node !in seen && Distance(edges, start, node, queue[at].1 + 1)
    ensures QueueOk(edges, start, queue + [(node, queue[at].1 + 1)], at)
    ensures Holds(seen + {node}, queue + [(node, queue[at].1 + 1)])
  {
    var longer := queue + [(node, queue[at].1 + 1)];
    Appended(queue, seen, node, queue[at].1 + 1);
    forall i | 0 <= i < |longer|
      ensures Distance(edges, start, longer[i].0, longer[i].1)
    {
      assert i < |queue| ==> longer[i] == queue[i];
    }
  }

  /**
    The queue while the first e edges have been tried on its entry at `at`; `before` and `known` are where
    it began.
  */
  ghost predicate Expanding(edges: seq<Edge>, start: Node, before: seq<Entry>, known: set<Node>, queue: seq<Entry>,
                            seen: set<Node>, at: nat, e: nat)
  {
    && e <= |edges| && at < |before| && before <= queue && known <= seen <= Nodes(edges, start)
    && QueueOk(edges, start, queue, at) && Holds(seen, queue)
    && Expanded(edges, seen, queue[at].0, e)
  }

  lemma ExpandingStep(edges: seq<Edge>, start: Node, before: seq<Entry>, known: set<Node>, queue: seq<Entry>,
                      seen: set<Node>, at: nat, e: nat, node: Node, d: nat)
    requires Expanding(edges, start, before, known, queue, seen, at, e) && e < |edges|
    requires before[at] == (node, d) && Layered(edges, start, known, d)
    ensures var (left, right) := edges[e];
            if left == node && right !in seen
            then Expanding(edges, start, before, known, queue + [(right, d + 1)], seen + {right}, at, e + 1)
            else Expanding(edges, start, before, known, queue, seen, at, e + 1)
  {
    var (left, right) := edges[e];
    if left == node && right !in seen {
      ReachedNode(edges, start, queue, at, e);
      NewDistance(edges, start, known, left, d, e);
      Discovered(edges, start, queue, seen, at, right);
    }
  }

  /** Follows every edge of the entry at `at` and appends what is new. */
  method Expand(edges: seq<Edge>, ghost start: Node, queue: seq<Entry>, seen: set<Node>, at: nat)
    returns (queue': seq<Entry>, seen': set<Node>)
    requires QueueOk(edges, start, queue, at) && at < |queue| && Holds(seen, queue)
    requires seen <= Nodes(edges, start) && Layered(edges, start, seen, queue[at].1)
    ensures Expanding(edges, start, queue, seen, queue', seen', at, |edges|)
  {
    var (node, distance) := queue[at];
    queue', seen' := queue, seen;
    for e := 0 to |edges|
      invariant Expanding(edges, start, queue, seen, queue', seen', at, e)
    {
      ExpandingStep(edges, start, queue, seen, queue', seen', at, e, node, distance);
      var (left, right) := edges[e];
      if left == node && right !in seen' {
        seen', queue' := seen' + {right}, queue' + [(right, distance + 1)];
      }
    }
  }

  lemma {:induction false} ReachedNode(edges: seq<Edge>, start: Node, queue: seq<Entry>, at: nat, e: nat)
    requires QueueOk(edges, start, queue, at) && at < |queue| && e < |edges|
    ensures Walk(edges, start, queue[at].0, queue[at].1)
    ensures edges[e].1 in Nodes(edges, start)
  {
    assert Distance(edges, start, queue[at].0, queue[at].1);
    assert edges[e] in edges;
  }

  /** The state of the search before the entry at `at` is looked at. */
  ghost predicate SearchOk(edges: seq<Edge>, start: Node, end: Node, queue: seq<Entry>, seen: set<Node>, at: nat) {
    && QueueOk(edges, start, queue, at) && Holds(seen, queue) && seen <= Nodes(edges, start)
    && (forall i :: 0 <= i < at ==> queue[i].0 != end && Expanded(edges, seen, queue[i].0, |edges|))
    && (at < |queue| ==> Layered(edges, start, seen, queue[at].1))
  }

  ghost function Visited(queue: seq<Entry>, at: nat): set<Node>
    requires at <= |queue|
  {
    set i | 0 <= i < at :: queue[i].0
  }

  lemma SearchStarts(edges: seq<Edge>, start: Node, end: Node)
    ensures SearchOk(edges, start, end, [(start, 0)], {start}, 0)
  {
    var queue: seq<Entry> := [(start, 0)];
    assert queue[0].0 == start;
    assert Walk(edges, start, start, 0);
  }

  lemma SearchAdvances(edges: seq<Edge>, start: Node, end: Node, queue: seq<Entry>, seen: set<Node>, at: nat,
                       queue': seq<Entry>, seen': set<Node>)
    requires SearchOk(edges, start, end, queue, seen, at) && at < |queue| && queue[at].0 != end
    requires Expanding(edges, start, queue, seen, queue', seen', at, |edges|)
    ensures SearchOk(edges, start, end, queue', seen', at + 1)
    ensures Visited(queue', at + 1) == Visited(queue, at) + {queue[at].0}
    ensures queue[at].0 !in Visited(queue, at) && queue[at].0 in Nodes(edges, start)
  {
    assert queue[at].0 in seen;
    forall i | 0 <= i <= at
      ensures queue'[i] == queue[i] && queue'[i].0 != end && Expanded(edges, seen', queue'[i].0, |edges|)
    {
    }
    if at + 1 < |queue'| {
      NextLayer(edges, start, queue', seen', at + 1);
    }
  }

  /** The number of edges on a shortest path, or -1 exactly when there is no path. */
  method Shortest(edges: seq<Edge>, start: Node, end: Node) returns (answer: int)
    ensures answer >= -1
    ensures answer >= 0 ==> Distance(edges, start, end, answer)
    ensures answer == -1 <==> !Reachable(edges, start, end)
  {
    var queue: seq<Entry>, seen := [(start, 0)], {start};
    var at := 0;
    SearchStarts(edges, start, end);
    while at < |queue|
      invariant at <= |queue| && SearchOk(edges, start, end, queue, seen, at)
      decreases Nodes(edges, start) - Visited(queue, at)
    {
      var (node, distance) := queue[at];
      if node == end {
        assert Walk(edges, start, end, distance);
        return distance;
      }
      var queue', seen' := Expand(edges, start, queue, seen, at);
      SearchAdvances(edges, start, end, queue, seen, at, queue', seen');
      queue, seen, at := queue', seen', at + 1;
    }
    Exhausted(edges, start, end, queue, seen);
    answer := -1;
  }

  lemma Exhausted(edges: seq<Edge>, start: Node, end: Node, queue: seq<Entry>, seen: set<Node>)
    requires SearchOk(edges, start, end, queue, seen, |queue|)
    ensures !Reachable(edges, start, end)
  {
    assert queue[0].0 == start;
    if Reachable(edges, start, end) {
      var n: nat :| Walk(edges, start, end, n);
      ClosedSeen(edges, start, queue, seen, end, n);
    }
  }

  // ---------- Chains ----------

  /** Pairs as a dictionary: the last pair of a key counts. */
  function Mapping(edges: seq<Edge>): map<Node, Node> {
    if edges == [] then map[]
    else Mapping(edges[..|edges| - 1])[edges[|edges| - 1].0 := edges[|edges| - 1].1]
  }

  /** The node n links on; a node without a link stays where it is. */
  function Follow(links: map<Node, Node>, node: Node, n: nat): Node {
    if n == 0 then node
    else
      var before := Follow(links, node, n - 1);
      if before in links then links[before] else before
  }

  ghost predicate OnCycle(links: map<Node, Node>, node: Node) {
    node in links && exists p: nat :: p > 0 && Follow(links, node, p) == node
  }

  /** `node` is where the walk from `start` first stands on a dead end or on a cycle. */
  ghost predicate ChainEnd(links: map<Node, Node>, start: Node, node: Node) {
    exists n: nat :: EndsAt(links, start, node, n)
  }

  ghost predicate EndsAt(links: map<Node, Node>, start: Node, node: Node, n: nat) {
    && node == Follow(links, start, n)
    && (node !in links || OnCycle(links, node))
    && forall i: nat :: i < n ==> Follow(links, start, i) in links && !OnCycle(links, Follow(links, start, i))
  }

  /** There is only one such node. */
  lemma ChainEndUnique(links: map<Node, Node>, start: Node, a: Node, b: Node)
    requires ChainEnd(links, start, a) && ChainEnd(links, start, b)
    ensures a == b
  {
    var m: nat :| EndsAt(links, start, a, m);
    var n: nat :| EndsAt(links, start, b, n);
  }

  lemma {:induction false} FollowSum(links: map<Node, Node>, node: Node, a: nat, b: nat)
    ensures Follow(links, Follow(links, node, a), b) == Follow(links, node, a + b)
  {
    if b > 0 {
      FollowSum(links, node, a, b - 1);
    }
  }

  /** A node on a cycle never comes to a dead end. */
  lemma {:induction false} CycleHasNoEnd(links: map<Node, Node>, node: Node, p: nat, d: nat)
    requires node in links && p > 0 && Follow(links, node, p) == node
    ensures Follow(links, node, d) in links
    decreases d
  {
    if d >= p {
      FollowSum(links, node, p, d - p);
      CycleHasNoEnd(links, node, p, d - p);
    } else if Follow(links, node, d) !in links {
      DeadEnd(links, Follow(links, node, d), p - d);
      FollowSum(links, node, d, p - d);
    }
  }

  lemma {:induction false} DeadEnd(links: map<Node, Node>, node: Node, n: nat)
    requires node !in links
    ensures Follow(links, node, n) == node
  {
    if n > 0 {
      DeadEnd(links, node, n - 1);
    }
  }

  /** After a repetition the walk stays on the nodes from the first occurrence on. */
  lemma {:induction false} StaysOnLoop(links: map<Node, Node>, start: Node, first: nat, again: nat, n: nat)
    returns (q: nat)
    requires first < again && Follow(links, start, first) == Follow(links, start, again) && first <= n
    ensures first <= q < again && Follow(links, start, n) == Follow(links, start, q)
  {
    if n < again {
      q := n;
    } else if n == again {
      q := first;
    } else {
      q := StaysOnLoop(links, start, first, again, n - 1);
      if q + 1 < again {
        q := q + 1;
      } else {
        q := first;
      }
    }
  }

  /** The first nodes of the walk from `start`, all different. */
  ghost predicate Trail(links: map<Node, Node>, start: Node, trail: seq<Node>) {
    && (forall k {:trigger trail[k]} :: 0 <= k < |trail| ==> trail[k] == Follow(links, start, k) && trail[k] in links)
    && (forall a, b :: 0 <= a < b < |trail| ==> trail[a] != trail[b])
  }

  lemma {:induction false} TrailNodesDiffer(links: map<Node, Node>, start: Node, trail: seq<Node>, i: nat, j: nat)
    requires Trail(links, start, trail) && i < j < |trail|
    ensures Follow(links, start, i) != Follow(links, start, j)
  {
    assert trail[i] == Follow(links, start, i) && trail[j] == Follow(links, start, j);
  }

  /** Before a dead end no node is on a cycle. */
  lemma {:induction false} NoCycleBeforeEnd(links: map<Node, Node>, start: Node, i: nat, n: nat)
    requires i <= n && Follow(links, start, n) !in links
    ensures !OnCycle(links, Follow(links, start, i))
  {
    var node := Follow(links, start, i);
    if OnCycle(links, node) {
      var p: nat :| p > 0 && Follow(links, node, p) == node;
      CycleHasNoEnd(links, node, p, n - i);
      FollowSum(links, start, i, n - i);
    }
  }

  /** Before the node that is visited again no node is on a cycle. */
  lemma {:induction false} NoCycleBeforeLoop(links: map<Node, Node>, start: Node, trail: seq<Node>, i: nat, first: nat)
    requires Trail(links, start, trail) && i < first < |trail| && Follow(links, start, |trail|) == trail[first]
    ensures !OnCycle(links, trail[i])
  {
    if OnCycle(links, trail[i]) {
      var p: nat :| p > 0 && Follow(links, trail[i], p) == trail[i];
      assert trail[i] == Follow(links, start, i);
      FollowSum(links, start, i, p);
      assert trail[first] == Follow(links, start, first);
      var q := i + p;
      if i + p >= first {
        q := StaysOnLoop(links, start, first, |trail|, i + p);
      }
      TrailNodesDiffer(links, start, trail, i, q);
    }
  }

  /** The edge that counts for a node: the last one that leaves it. */
  ghost predicate LastEdge(edges: seq<Edge>, from: Node, to: Node) {
    exists i :: 0 <= i < |edges| && edges[i] == (from, to) && forall j :: i < j < |edges| ==> edges[j].0 != from
  }

  /** The dictionary holds every node that an edge leaves, with the end of the last such edge. */
  lemma {:induction false} MappingSpec(edges: seq<Edge>, node: Node)
    ensures node in Mapping(edges) <==> exists i :: 0 <= i < |edges| && edges[i].0 == node
    ensures node in Mapping(edges) ==> LastEdge(edges, node, Mapping(edges)[node])
  {
    if edges != [] {
      var n := |edges| - 1;
      MappingSpec(edges[..n], node);
      if edges[n].0 == node {
        assert edges[n] == (node, edges[n].1);
      } else if node in Mapping(edges[..n]) {
        var to := Mapping(edges)[node];
        var i :| 0 <= i < n && edges[..n][i] == (node, to) && forall j :: i < j < n ==> edges[..n][j].0 != node;
        assert edges[i] == (node, to);
        assert forall j :: i < j < n ==> edges[j] == edges[..n][j];
      }
    }
  }

  /**
    A chain over edges: a path along the edge that counts for each node, over nodes that are all
    different but for the last, which either no edge leaves or was passed before.
  */
  ghost predicate IsChain(edges: seq<Edge>, path: seq<Node>) {
    && path != []
    && (forall k :: 0 <= k < |path| - 1 ==> LastEdge(edges, path[k], path[k + 1]))
    && (forall a, b :: 0 <= a < b < |path| - 1 ==> path[a] != path[b])
    && ((forall i :: 0 <= i < |edges| ==> edges[i].0 != path[|path| - 1])
        || path[|path| - 1] in path[..|path| - 1])
  }

  lemma {:induction false} TrailIsChain(edges: seq<Edge>, start: Node, trail: seq<Node>, last: Node)
    requires Trail(Mapping(edges), start, trail) && last == Follow(Mapping(edges), start, |trail|)
    requires last in Mapping(edges) ==> last in trail
    ensures IsChain(edges, trail + [last]) && IsPath(edges, trail + [last]) && (trail + [last])[0] == start
  {
    var path := trail + [last];
    assert path[..|trail|] == trail && path[|trail|] == last;
    forall k | 0 <= k < |trail|
      ensures LastEdge(edges, path[k], path[k + 1]) && (path[k], path[k + 1]) in edges
    {
      MappingSpec(edges, trail[k]);
      assert trail[k] == Follow(Mapping(edges), start, k);
      assert k + 1 < |trail| ==> trail[k + 1] == Follow(Mapping(edges), start, k + 1);
    }
    MappingSpec(edges, last);
    assert |trail| > 0 ==> trail[0] == Follow(Mapping(edges), start, 0);
  }

  /** There is one chain from a node. */
  lemma {:induction false} ChainUnique(edges: seq<Edge>, p: seq<Node>, q: seq<Node>, n: nat)
    requires IsChain(edges, p) && IsChain(edges, q) && p[0] == q[0] && n < |p|
    ensures n < |q| && p[n] == q[n]
  {
    if n > 0 {
      ChainUnique(edges, p, q, n - 1);
      assert LastEdge(edges, p[n - 1], p[n - 1 + 1]);
      if n == |q| {
        assert q[n - 1] in q[..n - 1];
        var a :| 0 <= a < n - 1 && q[a] == q[n - 1];
        ChainUnique(edges, p, q, a);
      } else {
        assert LastEdge(edges, q[n - 1], q[n - 1 + 1]);
      }
    }
  }

  /** Walks the chain until it ends or repeats itself. */
  method Chain(edges: seq<Edge>, start: Node) returns (current: Node, ghost path: seq<Node>)
    ensures ChainEnd(Mapping(edges), start, current)
    ensures IsChain(edges, path) && IsPath(edges, path) && path[0] == start && path[|path| - 1] == current
  {
    var mapping := Mapping(edges);
    current := start;
    var seen: set<Node> := {};
    ghost var trail: seq<Node> := [];
    while current in mapping && current !in seen
      invariant current == Follow(mapping, start, |trail|)
      invariant forall v :: v in seen <==> v in trail
      invariant seen <= mapping.Keys && Trail(mapping, start, trail)
      decreases mapping.Keys - seen
    {
      assert current !in trail;
      trail := trail + [current];
      seen := seen + {current};
      current := mapping[current];
    }
    if current in mapping {
      ghost var first :| 0 <= first < |trail| && trail[first] == current;
      LoopFound(mapping, start, trail, first);
    } else {
      EndFound(mapping, start, trail);
    }
    path := trail + [current];
    TrailIsChain(edges, start, trail, current);
  }

  lemma {:induction false} EndFound(links: map<Node, Node>, start: Node, trail: seq<Node>)
    requires Trail(links, start, trail) && Follow(links, start, |trail|) !in links
    ensures ChainEnd(links, start, Follow(links, start, |trail|))
  {
    forall i: nat | i < |trail|
      ensures Follow(links, start, i) in links && !OnCycle(links, Follow(links, start, i))
    {
      assert trail[i] == Follow(links, start, i);
      NoCycleBeforeEnd(links, start, i, |trail|);
    }
    assert EndsAt(links, start, Follow(links, start, |trail|), |trail|);
  }

  lemma {:induction false} LoopFound(links: map<Node, Node>, start: Node, trail: seq<Node>, first: nat)
    requires Trail(links, start, trail) && first < |trail| && Follow(links, start, |trail|) == trail[first]
    ensures ChainEnd(links, start, trail[first])
  {
    var node := trail[first];
    assert node == Follow(links, start, first);
    FollowSum(links, start, first, |trail| - first);
    forall i: nat | i < first
      ensures Follow(links, start, i) in links && !OnCycle(links, Follow(links, start, i))
    {
      assert trail[i] == Follow(links, start, i);
      NoCycleBeforeLoop(links, start, trail, i, first);
    }
    assert EndsAt(links, start, node, first);
  }
}
