/** Stack heights on a control-flow graph of instructions: what a valid assignment is, why it is unique,
    and the invariant that a worklist pass keeps while it looks for it. */
module FlowGraph {

  /** One instruction. `callOk` is false for a call to a section that does not exist; `next` lists the
      places control can go, in the order they are visited; `size` counts its bytes. */
  datatype Node = Node(required: int, change: int, callOk: bool, isReturn: bool, next: seq<int>, size: nat)

  /** Instructions by offset, the number of bytes, and the declared heights at entry and at a return. */
  datatype Graph = Graph(nodes: map<int, Node>, size: nat, inputs: nat, outputs: nat)

  const LOC_UNVISITED := -1
  const LOC_IMMEDIATE := -2

  /** Byte `k` belongs to some instruction. */
  ghost predicate Owned(g: Graph, k: int) {
    exists i :: i in g.nodes && i <= k < i + g.nodes[i].size
  }

  /** The instructions tile the bytes and none of them can make a height negative. */
  ghost predicate Tiled(g: Graph) {
    && 0 in g.nodes
    && (forall i :: i in g.nodes ==>
          var n := g.nodes[i];
          && 0 <= i < i + n.size <= g.size
          && (n.callOk ==> n.required >= 0 && n.required + n.change >= 0))
    && (forall i, k :: i in g.nodes && i < k < i + g.nodes[i].size ==> k !in g.nodes)
    && (forall k :: 0 <= k < g.size ==> Owned(g, k))
  }

  // ----- What a valid height assignment is -----

  /** The instruction at `i` may run at height `h`. */
  predicate RunsAt(g: Graph, i: int, h: int)
    requires i in g.nodes
  {
    var n := g.nodes[i];
    n.callOk && h >= n.required && (n.isReturn ==> h + n.change == g.outputs)
  }

  /** One height per instruction: the first has the inputs, every edge adds the change of its source,
      a return leaves the outputs, and no edge leaves the instructions. */
  ghost predicate Consistent(g: Graph, heights: map<int, int>) {
    && heights.Keys == g.nodes.Keys
    && 0 in heights && heights[0] == g.inputs
    && (forall i :: i in heights ==> RunsAt(g, i, heights[i]))
    && (forall i, j :: i in heights && j in g.nodes[i].next ==>
          j in heights && heights[j] == heights[i] + g.nodes[i].change)
  }

  /** A path of the graph from offset 0 to `i`. */
  ghost predicate Path(g: Graph, path: seq<int>, i: int) {
    && |path| > 0 && path[0] == 0 && path[|path| - 1] == i
    && (forall k :: 0 <= k < |path| ==> path[k] in g.nodes)
    && (forall k :: 0 <= k < |path| - 1 ==> path[k + 1] in g.nodes[path[k]].next)
  }

  ghost predicate Reachable(g: Graph, i: int) {
    exists path :: Path(g, path, i)
  }

  /** The height with which a path arrives, every instruction on it having made its change. */
  ghost function HeightAlong(g: Graph, path: seq<int>): int
    requires forall k :: 0 <= k < |path| ==> path[k] in g.nodes
  {
    if |path| <= 1 then g.inputs else HeightAlong(g, path[..|path| - 1]) + g.nodes[path[|path| - 2]].change
  }

  /** Some path arrives at `i` with height `h`. */
  ghost predicate ReachedAt(g: Graph, i: int, h: int) {
    exists path :: Path(g, path, i) && HeightAlong(g, path) == h
  }

  ghost predicate AllReachable(g: Graph) {
    forall i :: i in g.nodes ==> Reachable(g, i)
  }

  /** A height assignment exists and there is no dead code. */
  ghost predicate Typable(g: Graph) {
    (exists heights :: Consistent(g, heights)) && AllReachable(g)
  }

  /** `m` is the largest height assigned. */
  ghost predicate IsMaximum(heights: map<int, int>, m: int) {
    && (forall i :: i in heights ==> heights[i] <= m)
    && (exists i :: i in heights && heights[i] == m)
  }

  /** Along any path two assignments agree. */
  lemma {:induction false} AgreeOnPath(g: Graph, h1: map<int, int>, h2: map<int, int>, path: seq<int>, i: int)
    requires Consistent(g, h1) && Consistent(g, h2)
    requires Path(g, path, i)
    ensures i in h1 && i in h2 && h1[i] == h2[i]
    decreases |path|
  {
    if |path| > 1 {
      var before := path[..|path| - 1];
      var last := before[|before| - 1];
      assert path[|path| - 1] in g.nodes[path[|path| - 2]].next;
      AgreeOnPath(g, h1, h2, before, last);
    }
  }

  /** Without dead code there is at most one assignment, so the answer of a pass that looks for it cannot
      depend on the order in which it visits instructions. */
  lemma UniqueHeights(g: Graph, h1: map<int, int>, h2: map<int, int>)
    requires AllReachable(g)
    requires Consistent(g, h1) && Consistent(g, h2)
    ensures h1 == h2
  {
    forall i | i in h1
      ensures h1[i] == h2[i]
    {
      var path :| Path(g, path, i);
      AgreeOnPath(g, h1, h2, path, i);
    }
  }

  // ----- The invariant of the worklist -----

  /** All work on the instruction at `i` is finished in `hs`. */
  ghost predicate Settled(g: Graph, hs: seq<int>, i: int)
    requires Tiled(g) && |hs| == g.size && i in g.nodes
  {
    && RunsAt(g, i, hs[i])
    && (forall j :: j in g.nodes[i].next ==> j in g.nodes && hs[j] == hs[i] + g.nodes[i].change)
    && (forall k :: i < k < i + g.nodes[i].size ==> hs[k] == LOC_IMMEDIATE)
  }

  /** Each visited instruction has the height every assignment must give it. */
  ghost predicate Forced(g: Graph, hs: seq<int>, seen: set<int>)
    requires Tiled(g) && |hs| == g.size && seen <= g.nodes.Keys
  {
    forall heights, i :: Consistent(g, heights) && i in seen ==> heights[i] == hs[i]
  }

  /** `open` are the visited instructions still to be worked on, `done` the finished ones. */
  ghost predicate Progress(g: Graph, hs: seq<int>, open: set<int>, done: set<int>) {
    && Tiled(g)
    && |hs| == g.size
    && open !! done && open + done <= g.nodes.Keys
    && 0 in open + done && hs[0] == g.inputs
    && (forall i :: i in g.nodes ==> (hs[i] == LOC_UNVISITED <==> i !in open + done))
    && (forall i :: i in open + done ==> hs[i] >= 0 && ReachedAt(g, i, hs[i]))
    && (forall k :: 0 <= k < |hs| && k !in g.nodes ==> hs[k] == LOC_UNVISITED || hs[k] == LOC_IMMEDIATE)
    && (forall i :: i in done ==> Settled(g, hs, i))
    && Forced(g, hs, open + done)
  }

  /** What the bookkeeping around the invariant needs of it. */
  lemma OpenIsReached(g: Graph, hs: seq<int>, open: set<int>, done: set<int>, i: int)
    requires Progress(g, hs, open, done) && i in open + done
    ensures i in g.nodes && 0 <= i < |hs| && ReachedAt(g, i, hs[i])
  {
    hide Forced, Settled, ReachedAt;
  }

  /** A visited successor with another height is reached at both. */
  lemma ReachedTwice(g: Graph, hs: seq<int>, open: set<int>, done: set<int>, i: int, j: int)
    requires Progress(g, hs, open, done) && i in open && j in g.nodes && j in g.nodes[i].next && hs[j] != LOC_UNVISITED
    ensures ReachedAt(g, j, hs[j]) && ReachedAt(g, j, hs[i] + g.nodes[i].change)
  {
    hide Forced, Settled, ReachedAt;
    ReachedStep(g, i, j, hs[i]);
  }

  lemma InRange(g: Graph, hs: seq<int>, open: set<int>, done: set<int>)
    requires Progress(g, hs, open, done)
    ensures Tiled(g) && |hs| == g.size
    ensures forall i :: i in g.nodes ==> 0 <= i < |hs| && (hs[i] == LOC_UNVISITED ==> i !in open)
    ensures forall i :: i in open ==> i in g.nodes && i !in done && hs[i] >= 0
  {
  }

  lemma Start(g: Graph, hs: seq<int>)
    requires Tiled(g) && |hs| == g.size
    requires hs[0] == g.inputs
    requires forall k :: 1 <= k < |hs| ==> hs[k] == LOC_UNVISITED
    ensures Progress(g, hs, {0}, {})
  {
    assert Path(g, [0], 0) && HeightAlong(g, [0]) == g.inputs;
  }

  lemma ReachedStep(g: Graph, i: int, j: int, h: int)
    requires i in g.nodes && ReachedAt(g, i, h)
    requires j in g.nodes && j in g.nodes[i].next
    ensures ReachedAt(g, j, h + g.nodes[i].change)
  {
    var path :| Path(g, path, i) && HeightAlong(g, path) == h;
    assert (path + [j])[..|path|] == path;
    assert Path(g, path + [j], j);
  }

  lemma ReachedReachable(g: Graph, i: int, h: int)
    requires ReachedAt(g, i, h)
    ensures Reachable(g, i)
  {
  }

  /** The height passed on to a successor is forced, too. */
  lemma VisitForced(g: Graph, hs: seq<int>, seen: set<int>, i: int, j: int)
    requires Tiled(g) && |hs| == g.size && seen <= g.nodes.Keys && Forced(g, hs, seen)
    requires i in seen && j in g.nodes && j !in seen && j in g.nodes[i].next
    ensures Forced(g, hs[j := hs[i] + g.nodes[i].change], seen + {j})
  {
    hide Tiled, RunsAt;
    NodesInRange(g);
  }

  lemma NodesInRange(g: Graph)
    requires Tiled(g)
    ensures forall i :: i in g.nodes ==> 0 <= i < g.size
  {
  }

  /** A finished instruction has no unvisited successor, so it stays finished when one is visited. */
  lemma VisitSettled(g: Graph, hs: seq<int>, d: int, j: int, height: int)
    requires Tiled(g) && |hs| == g.size && d in g.nodes && j in g.nodes && Settled(g, hs, d)
    requires hs[j] == LOC_UNVISITED && hs[d] >= 0 && d != j
    requires forall k :: k in g.nodes[d].next && k in g.nodes ==> hs[k] >= 0
    ensures Settled(g, hs[j := height], d)
  {
    hide Tiled, RunsAt;
    NodesInRange(g);
    InsideNotNode(g, d, j);
  }

  lemma InsideNotNode(g: Graph, d: int, j: int)
    requires Tiled(g) && d in g.nodes && j in g.nodes
    ensures !(d < j < d + g.nodes[d].size) && d + g.nodes[d].size <= g.size
  {
  }

  /** Visiting a fresh successor keeps the invariant. */
  lemma Visit(g: Graph, hs: seq<int>, open: set<int>, done: set<int>, i: int, j: int)
    requires Progress(g, hs, open, done) && i in open && RunsAt(g, i, hs[i])
    requires j in g.nodes[i].next && j in g.nodes && hs[j] == LOC_UNVISITED
    ensures Progress(g, hs[j := hs[i] + g.nodes[i].change], open + {j}, done)
  {
    hide Forced, Settled, ReachedAt;
    ReachedStep(g, i, j, hs[i]);
    var height := hs[i] + g.nodes[i].change;
    forall d | d in done
      ensures Settled(g, hs[j := height], d)
    {
      SettledNext(g, hs, d);
      VisitSettled(g, hs, d, j, height);
    }
    VisitForced(g, hs, open + done, i, j);
    assert open + {j} + done == open + done + {j};
  }

  lemma SettledNext(g: Graph, hs: seq<int>, d: int)
    requires Tiled(g) && |hs| == g.size && d in g.nodes && Settled(g, hs, d) && hs[d] >= 0
    ensures forall k :: k in g.nodes[d].next && k in g.nodes ==> hs[k] >= 0
  {
  }

  /** Marking the immediates of an instruction keeps the invariant. */
  lemma Mark(g: Graph, hs: seq<int>, hs': seq<int>, open: set<int>, done: set<int>, i: int)
    requires Progress(g, hs, open, done) && i in g.nodes && |hs'| == |hs|
    requires forall k :: 0 <= k < |hs| ==>
      hs'[k] == if i < k < i + g.nodes[i].size then LOC_IMMEDIATE else hs[k]
    ensures Progress(g, hs', open, done)
  {
    hide ReachedAt;
    forall d | d in done
      ensures Settled(g, hs', d)
    {
      assert Settled(g, hs, d);
    }
  }

  /** An instruction whose successors all agree is finished. */
  lemma Finish(g: Graph, hs: seq<int>, open: set<int>, done: set<int>, i: int)
    requires Progress(g, hs, open, done) && i in open && Settled(g, hs, i)
    ensures Progress(g, hs, open - {i}, done + {i})
  {
    hide Forced, ReachedAt;
    assert (open - {i}) + (done + {i}) == open + done;
  }

  /** An instruction that cannot run at its height, leaves the graph, or disagrees with a visited
      successor rules out every assignment. */
  lemma Refuted(g: Graph, hs: seq<int>, open: set<int>, done: set<int>, i: int)
    requires Progress(g, hs, open, done) && i in open
    requires
      || !RunsAt(g, i, hs[i])
      || exists j :: j in g.nodes[i].next &&
           (j !in g.nodes || (hs[j] != LOC_UNVISITED && hs[j] != hs[i] + g.nodes[i].change))
    ensures forall heights :: !Consistent(g, heights)
  {
    hide Settled, ReachedAt;
    assert Forced(g, hs, open + done);
  }

  /** When nothing is open, what was not visited cannot be reached. */
  lemma {:induction false} Closed(g: Graph, hs: seq<int>, done: set<int>, path: seq<int>, i: int)
    requires Progress(g, hs, {}, done) && Path(g, path, i)
    ensures i in done
    decreases |path|
  {
    if |path| > 1 {
      var before := path[..|path| - 1];
      var last := before[|before| - 1];
      assert path[|path| - 1] in g.nodes[path[|path| - 2]].next;
      Closed(g, hs, done, before, last);
      assert Settled(g, hs, last);
    }
  }

  /** With nothing open, an unvisited byte means dead code. */
  lemma Unvisited(g: Graph, hs: seq<int>, done: set<int>)
    requires Progress(g, hs, {}, done) && LOC_UNVISITED in hs
    ensures !AllReachable(g)
  {
    var k :| 0 <= k < |hs| && hs[k] == LOC_UNVISITED;
    assert Owned(g, k);
    var i :| i in g.nodes && i <= k < i + g.nodes[i].size;
    assert i !in done by {
      assert forall d :: d in done ==> Settled(g, hs, d);
    }
    if Reachable(g, i) {
      var path :| Path(g, path, i);
      Closed(g, hs, done, path, i);
    }
  }

  /** With nothing open and every byte visited, the heights found are an assignment. */
  lemma AllVisited(g: Graph, hs: seq<int>, done: set<int>)
    requires Progress(g, hs, {}, done) && LOC_UNVISITED !in hs
    ensures Consistent(g, map i | i in g.nodes :: hs[i]) && AllReachable(g)
  {
    hide Forced, Reachable, ReachedAt, RunsAt;
    var heights := map i | i in g.nodes :: hs[i];
    assert heights.Keys == g.nodes.Keys;
    forall i | i in g.nodes
      ensures i in done
    {
      assert hs[i] in hs;
    }
    forall i, j | i in heights && j in g.nodes[i].next
      ensures j in heights && heights[j] == heights[i] + g.nodes[i].change
    {
      assert Settled(g, hs, i);
    }
    forall i | i in heights
      ensures RunsAt(g, i, heights[i]) && Reachable(g, i)
    {
      assert Settled(g, hs, i);
      ReachedReachable(g, i, hs[i]);
    }
  }
}
