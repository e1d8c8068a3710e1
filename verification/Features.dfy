/** Structural node features: fan-out, fan-in and the breadth-first depth below the output. */
module Features {
  import opened Basics
  import opened Graphs

  /** `operands`, flattened, keeping those that are nodes of the graph. */
  function Operands(g: GraphBody, node: nat): (r: seq<nat>)
    requires g.Shaped() && node < g.Size()
    ensures forall v: nat :: v in r ==> v < g.Size() && g.Reads(node, v)
    ensures forall v: nat :: v < g.Size() && g.Reads(node, v) ==> v in r
    ensures g.op[node].UsesArg1() && g.arg0[node] < g.Size() && g.arg1[node] < g.Size() ==>
              r == [g.arg0[node], g.arg1[node]]
  {
    var first := if g.op[node].UsesArg0() && g.arg0[node] < g.Size() then [g.arg0[node]] else [];
    var second := if g.op[node].UsesArg1() && g.arg1[node] < g.Size() then [g.arg1[node]] else [];
    first + second
  }

  // ---- distances ---------------------------------------------------------------------------

  /** There is an operand path of exactly `k` edges from `source` to `v`. */
  ghost predicate ReachIn(g: GraphBody, source: nat, v: nat, k: nat)
    requires g.Shaped()
    decreases k
  {
    if k == 0 then v == source && v < g.Size()
    else exists u: nat :: u < g.Size() && ReachIn(g, source, u, k - 1) && v in Operands(g, u)
  }

  /** The length of the shortest operand path. */
  ghost predicate Distance(g: GraphBody, source: nat, v: nat, d: nat)
    requires g.Shaped()
  {
    ReachIn(g, source, v, d) && forall k: nat :: k < d ==> !ReachIn(g, source, v, k)
  }

  // ---- the search --------------------------------------------------------------------------

  /** Every assigned depth is the length of some path, and the output has depth zero. */
  ghost predicate Founded(g: GraphBody, depth: seq<int>)
    requires g.Shaped()
  {
    && |depth| == g.Size()
    && (g.outputNode < g.Size() ==> depth[g.outputNode] == 0)
    && forall v :: 0 <= v < |depth| ==> depth[v] >= -1 && (depth[v] >= 0 ==> ReachIn(g, g.outputNode, v, depth[v]))
  }

  /** Exactly the queued and the finished nodes have a depth. */
  ghost predicate Partition(depth: seq<int>, queue: seq<nat>, done: set<nat>)
  {
    && NoRepeats(queue)
    && (forall v :: v in queue ==> v < |depth| && v !in done)
    && (forall v :: v in done ==> v < |depth|)
    && forall v :: 0 <= v < |depth| ==> (depth[v] >= 0 <==> v in queue || v in done)
  }

  /** The queue is in order of depth, at levels `top` and `top + 1`, and nothing lies deeper. */
  ghost predicate Levelled(depth: seq<int>, queue: seq<nat>, top: int)
  {
    && (forall v :: v in queue ==> v < |depth| && depth[v] >= top)
    && (forall i, j :: 0 <= i < j < |queue| ==>
        queue[i] < |depth| && queue[j] < |depth| && depth[queue[i]] <= depth[queue[j]])
    && forall v :: 0 <= v < |depth| ==> depth[v] <= top + 1
  }

  /** The first `k` operands of `u` have depths, at most one more than its own. */
  ghost predicate Settled(g: GraphBody, depth: seq<int>, u: nat, k: nat)
    requires g.Shaped()
  {
    && |depth| == g.Size() && u < g.Size() && k <= |Operands(g, u)|
    && forall i :: 0 <= i < k ==> 0 <= depth[Operands(g, u)[i]] <= depth[u] + 1
  }

  ghost predicate AllSettled(g: GraphBody, depth: seq<int>, done: set<nat>)
    requires g.Shaped()
  {
    forall u :: u in done ==> u < g.Size() && Settled(g, depth, u, |Operands(g, u)|)
  }

  /** The state of the search while node `u` is being expanded, after `k` of its operands. */
  ghost predicate Expanding(g: GraphBody, depth: seq<int>, queue: seq<nat>, done: set<nat>, u: nat, k: nat)
    requires g.Shaped()
  {
    && Founded(g, depth) && u in done && Partition(depth, queue, done)
    && Settled(g, depth, u, k) && AllSettled(g, depth, done - {u})
    && Levelled(depth, queue, depth[u])
  }

  /** A first depth for `v` disturbs no settled node. */
  lemma SettledKept(g: GraphBody, depth: seq<int>, v: nat, d: int, u: nat, k: nat)
    requires g.Shaped() && Settled(g, depth, u, k) && v < |depth| && depth[v] < 0 && v != u
    ensures Settled(g, depth[v := d], u, k)
  {
    hide Operands;
    forall i | 0 <= i < k
      ensures Operands(g, u)[i] < |depth| && Operands(g, u)[i] != v
    {
      assert Operands(g, u)[i] in Operands(g, u);
    }
  }

  lemma PartitionGrows(depth: seq<int>, queue: seq<nat>, done: set<nat>, v: nat, d: int)
    requires Partition(depth, queue, done) && v < |depth| && depth[v] < 0 <= d
    ensures v !in queue && v !in done && Partition(depth[v := d], queue + [v], done)
  {
  }

  lemma LevelledGrows(depth: seq<int>, queue: seq<nat>, top: int, v: nat)
    requires Levelled(depth, queue, top) && v < |depth| && v !in queue
    ensures Levelled(depth[v := top + 1], queue + [v], top)
  {
    forall i | 0 <= i < |queue|
      ensures queue[i] != v && queue[i] < |depth| && depth[queue[i]] <= top + 1
    {
      assert queue[i] in queue;
    }
  }

  /** A newly found operand. */
  lemma Discover(g: GraphBody, depth: seq<int>, queue: seq<nat>, done: set<nat>, u: nat, k: nat)
    requires g.Shaped() && Expanding(g, depth, queue, done, u, k) && k < |Operands(g, u)|
    requires depth[Operands(g, u)[k]] < 0
    ensures var v := Operands(g, u)[k];
            Expanding(g, depth[v := depth[u] + 1], queue + [v], done, u, k + 1)
  {
    hide Operands;
    var v := Operands(g, u)[k];
    assert v in Operands(g, u);
    var depth' := depth[v := depth[u] + 1];
    PartitionGrows(depth, queue, done, v, depth[u] + 1);
    LevelledGrows(depth, queue, depth[u], v);
    assert depth[u] >= 0;
    assert ReachIn(g, g.outputNode, u, depth[u]);
    assert ReachIn(g, g.outputNode, v, depth[u] + 1);
    assert Founded(g, depth');
    hide ReachIn, Founded, Partition, Levelled;
    forall w | w in done - {u}
      ensures w < g.Size() && Settled(g, depth', w, |Operands(g, w)|)
    {
      assert Settled(g, depth, w, |Operands(g, w)|);
      SettledKept(g, depth, v, depth[u] + 1, w, |Operands(g, w)|);
    }
    SettledKept(g, depth, v, depth[u] + 1, u, k);
    assert Settled(g, depth', u, k + 1);
    assert AllSettled(g, depth', done - {u});
  }

  /** An operand that already has a depth. */
  lemma Revisit(g: GraphBody, depth: seq<int>, queue: seq<nat>, done: set<nat>, u: nat, k: nat)
    requires g.Shaped() && Expanding(g, depth, queue, done, u, k) && k < |Operands(g, u)|
    requires depth[Operands(g, u)[k]] >= 0
    ensures Expanding(g, depth, queue, done, u, k + 1)
  {
    hide Operands, ReachIn;
    assert Operands(g, u)[k] in Operands(g, u);
  }

  /** The search between two nodes. */
  ghost predicate Searching(g: GraphBody, depth: seq<int>, queue: seq<nat>, done: set<nat>)
    requires g.Shaped()
  {
    && Founded(g, depth) && Partition(depth, queue, done) && AllSettled(g, depth, done)
    && (queue != [] ==> queue[0] < |depth| && Levelled(depth, queue, depth[queue[0]]))
  }

  lemma Start(g: GraphBody, depth: seq<int>, queue: seq<nat>)
    requires g.Shaped() && |depth| == g.Size()
    requires forall v :: 0 <= v < |depth| ==> depth[v] == if v == g.outputNode then 0 else -1
    requires queue == if g.outputNode < g.Size() then [g.outputNode as nat] else []
    ensures Searching(g, depth, queue, {})
  {
    if g.outputNode < g.Size() { assert ReachIn(g, g.outputNode, g.outputNode, 0); }
  }

  lemma Pop(g: GraphBody, depth: seq<int>, queue: seq<nat>, done: set<nat>)
    requires g.Shaped() && Searching(g, depth, queue, done) && queue != []
    ensures queue[0] !in done && Expanding(g, depth, queue[1..], done + {queue[0]}, queue[0], 0)
  {
    hide Operands, ReachIn;
    var u, rest := queue[0], queue[1..];
    assert forall v :: v in queue <==> v == u || v in rest;
    assert done + {u} - {u} == done;
    forall i | 0 < i < |queue| ensures queue[i] != u { }
  }

  lemma Finish(g: GraphBody, depth: seq<int>, queue: seq<nat>, done: set<nat>, u: nat)
    requires g.Shaped() && u < g.Size() && Expanding(g, depth, queue, done, u, |Operands(g, u)|)
    ensures Searching(g, depth, queue, done)
  {
    hide Operands, ReachIn;
    forall w | w in done
      ensures w < g.Size() && Settled(g, depth, w, |Operands(g, w)|)
    {
      if w != u { assert w in done - {u}; }
    }
    if queue != [] {
      assert queue[0] in queue;
      forall v | 0 <= v < |depth|
        ensures depth[v] <= depth[queue[0]] + 1
      {
        assert depth[v] <= depth[u] + 1 <= depth[queue[0]] + 1;
      }
    }
  }

  /** When the queue is empty, no path is shorter than the assigned depth. */
  lemma {:induction false} NoShorter(g: GraphBody, depth: seq<int>, done: set<nat>, v: nat, k: nat)
    requires g.Shaped() && Searching(g, depth, [], done) && ReachIn(g, g.outputNode, v, k)
    ensures v < g.Size() && 0 <= depth[v] <= k
    decreases k
  {
    if k > 0 {
      var u: nat :| u < g.Size() && ReachIn(g, g.outputNode, u, k - 1) && v in Operands(g, u);
      NoShorter(g, depth, done, u, k - 1);
      assert u in done;
      assert Settled(g, depth, u, |Operands(g, u)|);
    }
  }

  /** The finished search: shortest distances where there is a path, and -1 elsewhere. */
  ghost predicate Depths(g: GraphBody, depth: seq<int>)
    requires g.Shaped()
  {
    && |depth| == g.Size()
    && forall v :: 0 <= v < |depth| ==> DepthOf(g, depth[v], v)
  }

  ghost predicate DepthOf(g: GraphBody, d: int, v: nat)
    requires g.Shaped()
  {
    if d >= 0 then Distance(g, g.outputNode, v, d) else d == -1 && forall k: nat :: !ReachIn(g, g.outputNode, v, k)
  }

  lemma SearchIsExact(g: GraphBody, depth: seq<int>, done: set<nat>)
    requires g.Shaped() && Searching(g, depth, [], done)
    ensures Depths(g, depth)
  {
    forall v | 0 <= v < |depth|
      ensures DepthOf(g, depth[v], v)
    {
      forall k: nat | ReachIn(g, g.outputNode, v, k)
        ensures 0 <= depth[v] <= k
      {
        NoShorter(g, depth, done, v, k);
      }
    }
  }

  lemma {:induction false} BoundedCard(done: set<nat>, n: nat)
    requires forall v :: v in done ==> v < n
    ensures |done| <= n
    decreases n
  {
    if n > 0 {
      BoundedCard(done - {n - 1}, n - 1);
    } else {
      assert done == {};
    }
  }

  /** Expand one node: give every new operand its depth and queue it. */
  method Expand(g: GraphBody, depth: array<int>, rest: seq<nat>, ghost done: set<nat>, u: nat) returns (queue: seq<nat>)
    requires g.Shaped() && u < g.Size() && Expanding(g, depth[..], rest, done, u, 0)
    modifies depth
    ensures Searching(g, depth[..], queue, done)
  {
    hide Operands, Expanding;
    var n := g.Size();
    queue := rest;
    assert depth.Length == n by { ExpandingLength(g, depth[..], rest, done, u, 0); }
    var operands := Operands(g, u);
    for k := 0 to |operands|
      invariant depth.Length == n && Expanding(g, depth[..], queue, done, u, k)
    {
      assert operands[k] in operands;
      if depth[operands[k]] < 0 {
        Discover(g, depth[..], queue, done, u, k);
        ghost var before := depth[..];
        depth[operands[k]] := depth[u] + 1;
        assert depth[..] == before[operands[k] := before[u] + 1];
        queue := queue + [operands[k]];
      } else {
        Revisit(g, depth[..], queue, done, u, k);
      }
    }
    Finish(g, depth[..], queue, done, u);
  }

  lemma ExpandingLength(g: GraphBody, depth: seq<int>, queue: seq<nat>, done: set<nat>, u: nat, k: nat)
    requires g.Shaped() && Expanding(g, depth, queue, done, u, k)
    ensures |depth| == g.Size()
  {
  }

  /**
   * The breadth-first search of `node_attrs`. It ends on cyclic graphs too: every node is queued at most
   * once. Every node gets its exact distance below the output; exactly the unreachable ones get none.
   */
  method BreadthFirst(g: GraphBody) returns (depth: array<int>)
    requires g.Shaped()
    ensures fresh(depth) && Depths(g, depth[..])
  {
    var n := g.Size();
    depth := new int[n](i => -1);
    var queue: seq<nat> := [];
    if g.outputNode < n {
      depth[g.outputNode] := 0;
      queue := [g.outputNode];
    }
    Start(g, depth[..], queue);
    ghost var done: set<nat> := {};
    hide Operands, Depths;
    while queue != []
      invariant depth.Length == n && Searching(g, depth[..], queue, done) && |done| <= n
      decreases n - |done|
    {
      var u := queue[0];
      Pop(g, depth[..], queue, done);
      BoundedCard(done + {u}, n);
      queue := Expand(g, depth, queue[1..], done + {u}, u);
      done := done + {u};
    }
    SearchIsExact(g, depth[..], done);
  }

  // ---- fan counts --------------------------------------------------------------------------

  ghost function Sum(s: seq<nat>): nat
  {
    if s == [] then 0 else Sum(s[..|s| - 1]) + s[|s| - 1]
  }

  lemma {:induction false} SumUpdate(s: seq<nat>, i: nat, x: nat)
    requires i < |s|
    ensures Sum(s[i := x]) + s[i] == Sum(s) + x
  {
    var last := |s| - 1;
    if i == last {
      assert s[i := x][..last] == s[..last];
    } else {
      SumUpdate(s[..last], i, x);
      assert s[i := x][..last] == s[..last][i := x];
    }
  }

  lemma {:induction false} SumZero(s: seq<nat>)
    requires forall i :: 0 <= i < |s| ==> s[i] == 0
    ensures Sum(s) == 0
  {
    if s != [] { SumZero(s[..|s| - 1]); }
  }

  ghost function Count(s: seq<nat>, v: nat): nat
  {
    if s == [] then 0 else Count(s[..|s| - 1], v) + if s[|s| - 1] == v then 1 else 0
  }

  /** How often the first `k` nodes read `v`. */
  ghost function Uses(g: GraphBody, v: nat, k: nat): nat
    requires g.Shaped() && k <= g.Size()
  {
    if k == 0 then 0 else Uses(g, v, k - 1) + Count(Operands(g, k - 1), v)
  }

  /** One more use of `v`, by node `dst`. */
  method AddUse(fanOut: array<nat>, fanIn: array<nat>, v: nat, dst: nat)
    requires fanOut != fanIn && v < fanOut.Length && dst < fanIn.Length
    modifies fanOut, fanIn
    ensures fanOut[..] == old(fanOut[..])[v := old(fanOut[v]) + 1]
    ensures fanIn[..] == old(fanIn[..])[dst := old(fanIn[dst]) + 1]
    ensures Sum(fanOut[..]) == old(Sum(fanOut[..])) + 1 && Sum(fanIn[..]) == old(Sum(fanIn[..])) + 1
  {
    SumUpdate(fanOut[..], v, fanOut[v] + 1);
    SumUpdate(fanIn[..], dst, fanIn[dst] + 1);
    fanOut[v] := fanOut[v] + 1;
    fanIn[dst] := fanIn[dst] + 1;
    assert fanOut[..] == old(fanOut[..])[v := old(fanOut[v]) + 1];
    assert fanIn[..] == old(fanIn[..])[dst := old(fanIn[dst]) + 1];
  }

  /** The operands of one node. */
  method CountNode(g: GraphBody, fanOut: array<nat>, fanIn: array<nat>, dst: nat)
    requires g.Shaped() && dst < g.Size() && fanOut != fanIn && fanOut.Length == fanIn.Length == g.Size()
    modifies fanOut, fanIn
    ensures forall v: nat :: v < g.Size() ==> fanOut[v] == old(fanOut[v]) + Count(Operands(g, dst), v)
    ensures forall v: nat :: v < g.Size() ==> fanIn[v] == old(fanIn[v]) + if v == dst then |Operands(g, dst)| else 0
    ensures Sum(fanOut[..]) + old(Sum(fanIn[..])) == old(Sum(fanOut[..])) + Sum(fanIn[..])
  {
    hide Operands, Sum;
    var n := g.Size();
    var operands := Operands(g, dst);
    for k := 0 to |operands|
      invariant forall v: nat :: v < n ==> fanOut[v] == old(fanOut[v]) + Count(operands[..k], v)
      invariant forall v: nat :: v < n ==> fanIn[v] == old(fanIn[v]) + if v == dst then k else 0
      invariant Sum(fanOut[..]) + old(Sum(fanIn[..])) == old(Sum(fanOut[..])) + Sum(fanIn[..])
    {
      assert operands[k] in operands;
      assert operands[..k + 1][..k] == operands[..k];
      ghost var outs, ins := fanOut[..], fanIn[..];
      AddUse(fanOut, fanIn, operands[k], dst);
      forall v: nat | v < n
        ensures fanOut[v] == outs[v] + (if v == operands[k] then 1 else 0) && fanIn[v] == ins[v] + if v == dst then 1
                else 0
      {
        assert fanOut[v] == fanOut[..][v] && fanIn[v] == fanIn[..][v];
      }
    }
    assert operands[..|operands|] == operands;
  }

  /** The first loop of `node_attrs`: exact counts of users and operands, with equal totals. */
  method FanCounts(g: GraphBody) returns (fanOut: array<nat>, fanIn: array<nat>)
    requires g.Shaped()
    ensures fresh(fanOut) && fresh(fanIn) && fanOut.Length == fanIn.Length == g.Size()
    ensures forall v: nat :: v < g.Size() ==> fanOut[v] == Uses(g, v, g.Size()) && fanIn[v] == |Operands(g, v)|
    ensures Sum(fanOut[..]) == Sum(fanIn[..])
  {
    hide Operands, Sum, Count;
    var n := g.Size();
    fanOut, fanIn := new nat[n](_ => 0), new nat[n](_ => 0);
    SumZero(fanOut[..]);
    SumZero(fanIn[..]);
    for dst := 0 to n
      invariant forall v: nat :: v < n ==> fanOut[v] == Uses(g, v, dst)
      invariant forall v: nat :: v < n ==> fanIn[v] == if v < dst then |Operands(g, v)| else 0
      invariant Sum(fanOut[..]) == Sum(fanIn[..])
    {
      CountNode(g, fanOut, fanIn, dst);
    }
  }

  // ---- attributes --------------------------------------------------------------------------

  /** The three attributes of a node, over exact rationals. */
  datatype Attrs = Attrs(fanOut: real, fanIn: real, depth: real)

  function Scaled(count: nat, scale: nat): real
    requires scale > 0
  {
    count as real / scale as real
  }

  /** The attributes say how many users and operands a node has and how deep it is, each over its scale. */
  ghost predicate AttrsSay(a: Attrs, users: nat, operands: nat, depth: nat, scale: nat, maxDepth: nat)
  {
    && a.fanOut * scale as real == users as real
    && a.fanIn * 2.0 == operands as real
    && a.depth * maxDepth as real == depth as real
  }

  lemma ScaledMeans(count: nat, scale: nat)
    requires scale > 0
    ensures Scaled(count, scale) * scale as real == count as real
  {
  }

  lemma ScaledSay(users: nat, operands: nat, depth: nat, scale: nat, maxDepth: nat)
    requires scale > 0 && maxDepth > 0
    ensures AttrsSay(Attrs(Scaled(users, scale), Scaled(operands, 2), Scaled(depth, maxDepth)), users, operands, depth,
                     scale, maxDepth)
  {
    ScaledMeans(users, scale);
    ScaledMeans(operands, 2);
    ScaledMeans(depth, maxDepth);
  }

  /** `node_attrs`: each node's own counts and depth, scaled; unreachable nodes have depth attribute zero. */
  method NodeAttrs(g: GraphBody) returns (attrs: seq<Attrs>, ghost depths: seq<int>, ghost maxDepth: nat)
    requires g.Shaped()
    ensures |attrs| == g.Size() && Depths(g, depths) && maxDepth >= 1
    ensures forall v :: 0 <= v < |depths| ==> depths[v] <= maxDepth
    ensures maxDepth > 1 ==> maxDepth in depths
    ensures forall v: nat :: v < g.Size() ==>
              AttrsSay(attrs[v], Uses(g, v, g.Size()), |Operands(g, v)|, if depths[v] >= 0 then depths[v] else 0,
                       if g.Size() > 1 then g.Size() - 1 else 1, maxDepth)
  {
    hide Operands, DepthOf, Uses, Scaled, AttrsSay;
    var n := g.Size();
    var fanOut, fanIn := FanCounts(g);
    var depth := BreadthFirst(g);
    var deepest: nat := 1;
    for v := 0 to n
      invariant forall w :: 0 <= w < v ==> depth[w] <= deepest
      invariant deepest >= 1 && (deepest > 1 ==> exists w :: 0 <= w < v && depth[w] == deepest)
    {
      if depth[v] > deepest { deepest := depth[v]; }
    }
    depths, maxDepth := depth[..], deepest;
    var scale := if n > 1 then n - 1 else 1;
    attrs := [];
    for v := 0 to n
      invariant |attrs| == v
      invariant forall w: nat :: w < v ==>
                  attrs[w] ==
                  Attrs(Scaled(fanOut[w], scale), Scaled(fanIn[w], 2),
                        Scaled(if depth[w] >= 0 then depth[w] else 0, deepest))
    {
      var reached := if depth[v] >= 0 then depth[v] else 0;
      attrs := attrs + [Attrs(Scaled(fanOut[v], scale), Scaled(fanIn[v], 2), Scaled(reached, deepest))];
    }
    forall v: nat | v < n
      ensures AttrsSay(attrs[v], Uses(g, v, n), |Operands(g, v)|, if depths[v] >= 0 then depths[v] else 0, scale,
                       maxDepth)
    {
      ScaledSay(fanOut[v], fanIn[v], if depth[v] >= 0 then depth[v] else 0, scale, deepest);
    }
  }
}
