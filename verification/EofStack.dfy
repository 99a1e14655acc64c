/** The worklist pass `validate_max_stack_height` (eof.cpp): one exact stack height per instruction. */
module EofStack {
  import opened Bytes
  import opened Opcodes
  import opened EofCode
  import opened FlowGraph

  /** `EOFCodeType`. */
  datatype CodeType = CodeType(inputs: byte, outputs: byte, maxStackHeight: int)

  const OUTPUTS_INPUTS_NUMBER_LIMIT := 0x7F
  const MAX_STACK_HEIGHT := 0x03FF

  /** What `validate_types` guarantees of each entry. */
  predicate TypesOk(types: seq<CodeType>) {
    forall t :: t in types ==>
      && t.inputs <= OUTPUTS_INPUTS_NUMBER_LIMIT
      && t.outputs <= OUTPUTS_INPUTS_NUMBER_LIMIT
      && 0 <= t.maxStackHeight <= MAX_STACK_HEIGHT
  }

  /** One code section together with the types of all sections. */
  datatype Section = Section(code: Code, index: nat, types: seq<CodeType>)

  /** The section has passed the instruction and jump checks, and the types theirs. */
  ghost predicate Checked(s: Section) {
    |s.code| > 0 && s.index < |s.types| && TypesOk(s.types) && WellFormed(s.code) && JumpsOk(s.code)
  }

  /** Whether control can run on into the following instruction. */
  predicate FallsThrough(op: byte) {
    !IsTerminating(op) && op != OP_RJUMP
  }

  /** The places control can go from the instruction at `i`. */
  function Successors(code: Code, i: nat): (s: seq<int>)
    requires i < |code| && i + InstrSize(code, i) <= |code|
  {
    (if FallsThrough(code[i]) then [i + InstrSize(code, i)] else [])
    + seq(TargetCount(code, i), k requires 0 <= k < TargetCount(code, i) => Target(code, i, k))
  }

  /** The instruction at `i`. CALLF stands for the whole call: it needs the callee's inputs and leaves its outputs. */
  function NodeAt(s: Section, i: nat): (n: Node)
    requires i < |s.code| && i + InstrSize(s.code, i) <= |s.code|
  {
    var op := s.code[i];
    var next := Successors(s.code, i);
    if op == OP_CALLF then
      var callee := U16(s.code, i + 1);
      if callee < |s.types| then
        var required := AsInt8(s.types[callee].inputs);
        Node(required, AsInt8(s.types[callee].outputs - required), true, false, next, InstrSize(s.code, i))
      else
        Node(0, 0, false, false, next, InstrSize(s.code, i))
    else
      Node(StackRequired(op), StackChange(op), true, op == OP_RETF, next, InstrSize(s.code, i))
  }

  /** The control-flow graph of a section. */
  ghost function Flow(s: Section): (g: Graph)
    requires Checked(s)
    ensures g.nodes.Keys == Instrs(s.code)
  {
    Graph(map i | i in Instrs(s.code) :: NodeAt(s, i), |s.code|,
          s.types[s.index].inputs as int, s.types[s.index].outputs as int)
  }

  /** No int8 truncation happens on validated types. */
  lemma CallNode(s: Section, i: int)
    requires Checked(s) && i in Instrs(s.code) && s.code[i] == OP_CALLF && U16(s.code, i + 1) < |s.types|
    ensures var callee, n := s.types[U16(s.code, i + 1)], NodeAt(s, i);
            n.required == callee.inputs && n.change == callee.outputs - callee.inputs
  {
    assert s.types[U16(s.code, i + 1)] in s.types;
  }

  /** An instruction of a checked section lies inside it, and is the node of its graph there. */
  lemma NodeIn(s: Section, i: int)
    requires Checked(s) && i in Instrs(s.code)
    ensures 0 <= i && i + InstrSize(s.code, i) <= |s.code| && Flow(s).nodes[i] == NodeAt(s, i)
  {
    hide GasCost, NodeAt, JumpsOk, DefinedInEof, Starts;
    assert InstrError(s.code, i) == Success;
  }

  /** The size of a node, and that it cannot make a height negative. */
  lemma NodeShape(s: Section, i: int)
    requires Checked(s) && i in Instrs(s.code) && i + InstrSize(s.code, i) <= |s.code|
    ensures var n := NodeAt(s, i);
            n.size == InstrSize(s.code, i) && (n.callOk ==> n.required >= 0 && n.required + n.change >= 0)
  {
    hide GasCost, StackRequired, StackProduced, StackChange, JumpsOk, WellFormed, Starts, Successors;
    if s.code[i] == OP_CALLF && U16(s.code, i + 1) < |s.types| {
      CallNode(s, i);
    }
  }

  lemma FlowTiled(s: Section)
    requires Checked(s)
    ensures Tiled(Flow(s)) && Flow(s).size == |s.code|
    ensures Flow(s).inputs == s.types[s.index].inputs as int && Flow(s).outputs == s.types[s.index].outputs as int
  {
    hide NodeAt, JumpsOk, WellFormed, InstrSize;
    var g := Flow(s);
    forall i | i in g.nodes
      ensures 0 <= i < i + g.nodes[i].size <= g.size
      ensures g.nodes[i].callOk ==> g.nodes[i].required >= 0 && g.nodes[i].required + g.nodes[i].change >= 0
      ensures forall k :: i < k < i + g.nodes[i].size ==> k !in g.nodes
    {
      NodeIn(s, i);
      NodeShape(s, i);
      StartsStep(s.code, 0, i);
    }
    forall k | 0 <= k < g.size
      ensures Owned(g, k)
    {
      var i := ImmediateOwner(s.code, 0, k);
      NodeIn(s, i);
      NodeShape(s, i);
    }
  }

  /** Jump targets of a checked section are instructions. */
  lemma TargetInFlow(s: Section, i: int, k: nat)
    requires Checked(s) && i in Instrs(s.code) && k < TargetCount(s.code, i)
    ensures Target(s.code, i, k) in Flow(s).nodes
    ensures Target(s.code, i, k) in Flow(s).nodes[i].next
  {
    var f := if FallsThrough(s.code[i]) then 1 else 0;
    assert Successors(s.code, i)[f + k] == Target(s.code, i, k);
  }

  lemma NodeNext(s: Section, i: nat)
    requires i < |s.code| && i + InstrSize(s.code, i) <= |s.code|
    ensures NodeAt(s, i).next == Successors(s.code, i)
    ensures NodeAt(s, i).isReturn ==> s.code[i] == OP_RETF && Successors(s.code, i) == []
  {
  }

  lemma NextOffset(s: Section, i: int)
    requires Checked(s) && i in Instrs(s.code) && i + InstrSize(s.code, i) <= |s.code|
    ensures i + InstrSize(s.code, i) in Instrs(s.code) || i + InstrSize(s.code, i) == |s.code|
  {
    hide WellFormed, JumpsOk, InstrSize;
    StartsStep(s.code, 0, i);
  }

  /** Fall-through may leave the code, jump targets never do, and a return goes nowhere. */
  lemma FlowNext(s: Section, i: int)
    requires Checked(s) && i in Instrs(s.code)
    ensures i + InstrSize(s.code, i) <= |s.code| && Flow(s).nodes[i] == NodeAt(s, i)
    ensures forall j :: j in NodeAt(s, i).next ==> j in Flow(s).nodes || j >= |s.code|
    ensures NodeAt(s, i).isReturn ==> NodeAt(s, i).next == []
  {
    hide NodeAt, Checked, InstrSize, Target, TargetCount, Instrs;
    NodeIn(s, i);
    NodeNext(s, i);
    NextOffset(s, i);
    var f := if FallsThrough(s.code[i]) then 1 else 0;
    forall m | 0 <= m < |Successors(s.code, i)|
      ensures Successors(s.code, i)[m] in Flow(s).nodes || Successors(s.code, i)[m] >= |s.code|
    {
      if m >= f {
        TargetInFlow(s, i, m - f);
      }
    }
  }

  /** The heights found are the only assignment, so their maximum is that of every assignment. */
  lemma MaximumIsMax(g: Graph, hs: seq<int>, done: set<int>, m: int)
    requires Progress(g, hs, {}, done) && LOC_UNVISITED !in hs
    requires m in hs && forall k :: 0 <= k < |hs| ==> hs[k] <= m
    ensures m >= 0 && forall heights :: Consistent(g, heights) ==> IsMaximum(heights, m)
  {
    AllVisited(g, hs, done);
    var found := map i | i in g.nodes :: hs[i];
    var k :| 0 <= k < |hs| && hs[k] == m;
    assert m >= hs[0] >= 0;
    assert k in g.nodes;
    assert IsMaximum(found, m) by {
      assert found[k] == m;
    }
    forall heights | Consistent(g, heights)
      ensures IsMaximum(heights, m)
    {
      UniqueHeights(g, heights, found);
    }
  }

  lemma Smaller(all: set<int>, done: set<int>, i: int)
    requires i in all && i !in done
    ensures |all - (done + {i})| < |all - done|
  {
    assert all - done == (all - (done + {i})) + {i};
  }

  // ----- What an error says -----

  /** The fault that an error of the pass reports is there, on some path from the start of the section. */
  ghost predicate Explains(g: Graph, err: Error) {
    match err
    case InvalidCodeSectionIndex => exists i, h :: ReachedAt(g, i, h) && i in g.nodes && !g.nodes[i].callOk
    case StackUnderflow =>
      exists i, h :: ReachedAt(g, i, h) && i in g.nodes && g.nodes[i].callOk && h < g.nodes[i].required
    case NonEmptyStackOnTerminatingInstruction =>
      exists i, h :: ReachedAt(g, i, h) && i in g.nodes && g.nodes[i].isReturn && h + g.nodes[i].change != g.outputs
    case NoTerminatingInstruction =>
      exists i, h, j :: ReachedAt(g, i, h) && i in g.nodes && j in g.nodes[i].next && j >= g.size
    case StackHeightMismatch => exists i, h, h' :: ReachedAt(g, i, h) && ReachedAt(g, i, h') && h != h'
    case UnreachableInstructions => !AllReachable(g)
    case _ => false
  }

  /** An instruction that cannot run at a height it is reached with is such a fault. */
  lemma FaultHere(g: Graph, i: int, h: int)
    requires i in g.nodes && ReachedAt(g, i, h)
    ensures !g.nodes[i].callOk ==> Explains(g, InvalidCodeSectionIndex)
    ensures g.nodes[i].callOk && h < g.nodes[i].required ==> Explains(g, StackUnderflow)
    ensures g.nodes[i].isReturn && h + g.nodes[i].change != g.outputs ==>
              Explains(g, NonEmptyStackOnTerminatingInstruction)
  {
    hide ReachedAt, AllReachable;
  }

  // ----- The algorithm -----

  ghost function Elements(w: seq<int>): set<int> { set x | x in w }

  ghost predicate Distinct(w: seq<int>) {
    forall a, b :: 0 <= a < b < |w| ==> w[a] != w[b]
  }

  /** The lambda `validate_successor`. */
  method ValidateSuccessor(ghost g: Graph, hs: array<int>, worklist: seq<int>, ghost done: set<int>, ghost i: int,
                           j: int, height: int)
    returns (ok: bool, more: seq<int>)
    requires Progress(g, hs[..], Elements(worklist) + {i}, done) && hs.Length == g.size
    requires i in g.nodes && 0 <= i < hs.Length && RunsAt(g, i, hs[i])
    requires Distinct(worklist) && i !in worklist
    requires j in g.nodes[i].next && j in g.nodes && 0 <= j < hs.Length && height == hs[i] + g.nodes[i].change
    modifies hs
    ensures !ok ==> (forall heights :: !Consistent(g, heights)) && Explains(g, StackHeightMismatch)
    ensures ok ==> hs[j] == height
    ensures ok ==> Progress(g, hs[..], Elements(more) + {i}, done) && Distinct(more) && i !in more
    ensures forall k :: 0 <= k < hs.Length && old(hs[k]) != LOC_UNVISITED ==> hs[k] == old(hs[k])
  {
    hide Progress, ReachedAt;
    InRange(g, hs[..], Elements(worklist) + {i}, done);
    if hs[j] == LOC_UNVISITED {
      Visit(g, hs[..], Elements(worklist) + {i}, done, i, j);
      hs[j] := height;
      more := worklist + [j];
      assert hs[..] == old(hs[..])[j := height];
      assert Elements(more) + {i} == Elements(worklist) + {i} + {j};
      return true, more;
    }
    ok, more := hs[j] == height, worklist;
    if !ok {
      Refuted(g, hs[..], Elements(worklist) + {i}, done, i);
      ReachedTwice(g, hs[..], Elements(worklist) + {i}, done, i, j);
    }
  }

  /** The successor checks of one iteration: fall-through first, then the jump targets in table order.
      Only the fall-through can lie beyond the code. */
  method ValidateSuccessors(ghost g: Graph, hs: array<int>, worklist: seq<int>, ghost done: set<int>, i: int,
                            next: seq<int>, height: int)
    returns (err: Error, more: seq<int>)
    requires Progress(g, hs[..], Elements(worklist) + {i}, done) && hs.Length == g.size
    requires i in g.nodes && 0 <= i < hs.Length && RunsAt(g, i, hs[i])
    requires Distinct(worklist) && i !in worklist
    requires next == g.nodes[i].next && height == hs[i] + g.nodes[i].change && height >= 0
    requires forall j :: j in g.nodes ==> 0 <= j < hs.Length
    requires forall j :: j in next ==> j in g.nodes || j >= g.size
    modifies hs
    ensures err != Success ==> (forall heights :: !Consistent(g, heights)) && Explains(g, err)
    ensures err != UnreachableInstructions
    ensures err == Success ==>
              && Progress(g, hs[..], Elements(more) + {i}, done)
              && Distinct(more) && i !in more
              && forall j :: j in next ==> j in g.nodes && hs[j] == height
    ensures forall k :: 0 <= k < hs.Length && old(hs[k]) != LOC_UNVISITED ==> hs[k] == old(hs[k])
  {
    hide Progress, Consistent, ReachedAt;
    InRange(g, hs[..], Elements(worklist) + {i}, done);
    more := worklist;
    var m := 0;
    while m < |next|
      invariant 0 <= m <= |next|
      invariant Progress(g, hs[..], Elements(more) + {i}, done)
      invariant Distinct(more) && i !in more
      invariant forall l :: 0 <= l < m ==> next[l] in g.nodes && hs[next[l]] == height
      invariant forall k :: 0 <= k < hs.Length && old(hs[k]) != LOC_UNVISITED ==> hs[k] == old(hs[k])
    {
      if next[m] >= hs.Length {
        assert next[m] !in g.nodes;
        Refuted(g, hs[..], Elements(more) + {i}, done, i);
        OpenIsReached(g, hs[..], Elements(more) + {i}, done, i);
        assert next[m] in g.nodes[i].next;
        return NoTerminatingInstruction, more;
      }
      var ok;
      ok, more := ValidateSuccessor(g, hs, more, done, i, next[m], height);
      if !ok {
        return StackHeightMismatch, more;
      }
      m := m + 1;
    }
    return Success, more;
  }

  /** One iteration of the worklist loop, for the instruction `n` just popped. */
  method ProcessInstruction(ghost g: Graph, hs: array<int>, worklist: seq<int>, ghost done: set<int>, i: int,
                            n: Node, outputs: nat)
    returns (err: Error, more: seq<int>)
    requires Progress(g, hs[..], Elements(worklist) + {i}, done) && hs.Length == g.size
    requires i in g.nodes && n == g.nodes[i] && outputs == g.outputs
    requires Distinct(worklist) && i !in worklist
    requires forall j :: j in n.next ==> j in g.nodes || j >= g.size
    requires n.isReturn ==> n.next == []
    modifies hs
    ensures err != Success ==> (forall heights :: !Consistent(g, heights)) && Explains(g, err)
    ensures err != UnreachableInstructions
    ensures err == Success ==> Progress(g, hs[..], Elements(more), done + {i}) && Distinct(more)
  {
    hide Progress, Consistent, ReachedAt, Explains;
    InRange(g, hs[..], Elements(worklist) + {i}, done);
    OpenIsReached(g, hs[..], Elements(worklist) + {i}, done, i);
    FaultHere(g, i, hs[i]);
    more := worklist;
    if !n.callOk {
      Refuted(g, hs[..], Elements(more) + {i}, done, i);
      return InvalidCodeSectionIndex, more;
    }
    if hs[i] < n.required {
      Refuted(g, hs[..], Elements(more) + {i}, done, i);
      return StackUnderflow, more;
    }
    var height := hs[i] + n.change;
    forall k | i < k < i + n.size {
      hs[k] := LOC_IMMEDIATE;
    }
    Mark(g, old(hs[..]), hs[..], Elements(more) + {i}, done, i);
    if n.isReturn && height != outputs {
      Refuted(g, hs[..], Elements(more) + {i}, done, i);
      return NonEmptyStackOnTerminatingInstruction, more;
    }
    err, more := ValidateSuccessors(g, hs, more, done, i, n.next, height);
    if err == Success {
      assert Settled(g, hs[..], i);
      Finish(g, hs[..], Elements(more) + {i}, done, i);
      assert Elements(more) + {i} - {i} == Elements(more);
    }
  }

  /** Largest element, as `std::max_element` finds it. */
  method MaxElement(hs: array<int>) returns (m: int)
    requires hs.Length > 0
    ensures m in hs[..] && forall k :: 0 <= k < hs.Length ==> hs[k] <= m
  {
    m := hs[0];
    for k := 1 to hs.Length
      invariant m in hs[..]
      invariant forall l :: 0 <= l < k ==> hs[l] <= m
    {
      if m < hs[k] {
        m := hs[k];
      }
    }
  }

  lemma Single(i: int)
    ensures Elements([i]) == {i} && Distinct([i])
  {
  }

  lemma PopLast(w: seq<int>)
    requires w != [] && Distinct(w)
    ensures var i, rest := w[|w| - 1], w[..|w| - 1];
            Elements(w) == Elements(rest) + {i} && i !in rest && Distinct(rest)
  {
  }

  /** The worklist loop. */
  method Propagate(s: Section, hs: array<int>) returns (err: Error, ghost done: set<int>)
    requires Checked(s) && hs.Length == |s.code|
    requires Progress(Flow(s), hs[..], {0}, {})
    modifies hs
    ensures err != UnreachableInstructions
    ensures err != Success ==> (forall heights :: !Consistent(Flow(s), heights)) && Explains(Flow(s), err)
    ensures err == Success ==> Progress(Flow(s), hs[..], {}, done)
  {
    hide Progress, Consistent, NodeAt, InstrSize, WellFormed, JumpsOk, Starts, Tiled, TypesOk, Flow, Distinct, Explains;
    ghost var g := Flow(s);
    FlowTiled(s);
    var worklist := [0];
    done := {};
    Single(0);
    while worklist != []
      invariant Progress(g, hs[..], Elements(worklist), done) && Distinct(worklist)
      decreases |g.nodes.Keys - done|
    {
      var i := worklist[|worklist| - 1];
      var rest := worklist[..|worklist| - 1];
      PopLast(worklist);
      InRange(g, hs[..], Elements(worklist), done);
      FlowNext(s, i);
      Smaller(g.nodes.Keys, done, i);
      err, worklist := ProcessInstruction(g, hs, rest, done, i, NodeAt(s, i), s.types[s.index].outputs);
      if err != Success {
        return;
      }
      done := done + {i};
    }
    assert Elements(worklist) == {};
    err := Success;
  }

  /** The validator accepts a checked section exactly when it has a height assignment and no dead code, and
      then returns the largest height of that (unique) assignment. */
  method ValidateMaxStackHeight(s: Section) returns (r: Result<int>)
    requires Checked(s)
    ensures r.Ok? <==> Typable(Flow(s))
    ensures r.Ok? ==> r.value >= 0 && forall heights :: Consistent(Flow(s), heights) ==> IsMaximum(heights, r.value)
    ensures r.Err? ==> r.error != Success && Explains(Flow(s), r.error)
    ensures r.Err? && r.error != UnreachableInstructions ==> forall heights :: !Consistent(Flow(s), heights)
  {
    hide Progress, Consistent, NodeAt, InstrSize, WellFormed, JumpsOk, Starts, Tiled, AllReachable, IsMaximum, TypesOk;
    hide Flow, ReachedAt;
    FlowTiled(s);
    var hs := new int[|s.code|](_ => LOC_UNVISITED);
    hs[0] := s.types[s.index].inputs;
    Start(Flow(s), hs[..]);
    var err, done := Propagate(s, hs);
    if err != Success {
      return Err(err);
    }
    var m := MaxElement(hs);
    if LOC_UNVISITED in hs[..] {
      Unvisited(Flow(s), hs[..], done);
      return Err(UnreachableInstructions);
    }
    AllVisited(Flow(s), hs[..], done);
    MaximumIsMax(Flow(s), hs[..], done, m);
    return Ok(m);
  }
}
