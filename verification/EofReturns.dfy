/** When a validated container can break: exactly when its first section can return, which the code and the computed
    heights decide. */
module EofReturns {
  import opened Bytes
  import opened Opcodes
  import opened EofCode
  import opened FlowGraph
  import opened EofStack
  import opened EofHeader
  import opened EofContainer
  import opened EofRuntime

  /** A program, its sections and their height assignments. */
  datatype Image = Image(p: Program, sections: seq<Code>, heights: seq<map<int, int>>)

  ghost predicate Ready(x: Image) {
    Loaded(x.p, x.sections, x.heights)
  }

  function SectionAt(x: Image, k: nat): Section
    requires k < |x.sections|
  {
    Section(x.sections[k], k, x.p.types)
  }

  // ----- The condition -----

  /** The run-time guard of the instruction at `i` of section `k` lets it through, when the frame stands at `base` with
      `depth` calls below it; a call must also come back. */
  ghost predicate Passes(x: Image, k: nat, base: int, depth: nat, i: int)
    requires k < |x.sections|
    decreases STACK_LIMIT - depth, 0
  {
    var code := x.sections[k];
    && k < |x.heights| && i in x.heights[k] && 0 <= i < |code|
    && var op, height := code[i], base + x.heights[k][i];
       if op == OP_DUPN then i + 1 < |code| && height >= code[i + 1] as int + 1
       else if op == OP_SWAPN then i + 1 < |code| && height > code[i + 1] as int + 1
       else if op == OP_CALLF then
         && i + 2 < |code| && U16(code, i + 1) < |x.p.types| && U16(code, i + 1) < |x.sections|
         && var callee := U16(code, i + 1);
            && height + x.p.types[callee].maxStackHeight <= STACK_LIMIT && depth < STACK_LIMIT
            && Returns(x, callee, height - x.p.types[callee].inputs as int, depth + 1)
       else true
  }

  /** A path of section `k` to `i` on which every guard lets control through. */
  ghost predicate Walk(x: Image, k: nat, base: int, depth: nat, path: seq<int>, i: int)
    requires k < |x.sections|
    decreases STACK_LIMIT - depth, 1
  {
    && Checked(SectionAt(x, k)) && Path(Flow(SectionAt(x, k)), path, i)
    && forall y :: 0 <= y < |path| - 1 ==> Passes(x, k, base, depth, path[y])
  }

  /** The section, entered at `base` with `depth` calls below it, can get to a RETF. */
  ghost predicate Returns(x: Image, k: nat, base: int, depth: nat)
    requires k < |x.sections|
    decreases STACK_LIMIT - depth, 2
  {
    exists path, i :: Walk(x, k, base, depth, path, i) && 0 <= i < |x.sections[k]| && x.sections[k][i] == OP_RETF
  }

  /** The graph of section `k` has an edge from `i` to `j`. */
  ghost predicate Edge(x: Image, k: nat, i: int, j: int) {
    && k < |x.sections| && Checked(SectionAt(x, k))
    && var nodes := Flow(SectionAt(x, k)).nodes;
       i in nodes && j in nodes && j in nodes[i].next
  }

  // ----- A section that can return does so in some run -----

  lemma {:induction false} RunConcat(p: Program, m: Machine, a: seq<Input>, b: seq<Input>)
    ensures var r := Run(p, m, a);
            Run(p, m, a + b) == if r.Next? then Run(p, r.m, b) else r
    decreases |a|
  {
    hide Step;
    if a == [] {
      assert a + b == b;
    } else {
      var r := Step(p, m, a[0]);
      assert (a + b)[1..] == a[1..] + b;
      if r.Next? {
        RunConcat(p, r.m, a[1..], b);
      }
    }
  }

  lemma RunOne(p: Program, m: Machine, input: Input)
    ensures Run(p, m, [input]) == Step(p, m, input)
  {
    hide Step;
    assert [input][1..] == [];
  }

  /** The section `s` lies in the executable code so that its offset `i` is at `m.pc`. */
  predicate Lies(p: Program, m: Machine, s: Section, i: nat) {
    && i <= m.pc && m.pc - i + |s.code| <= |p.exec|
    && forall x :: 0 <= x < |s.code| ==> s.code[x] == p.exec[m.pc - i + x]
  }

  /** The operand that makes a jump take the edge to `j`. */
  lemma EdgeOperand(p: Program, m: Machine, s: Section, i: nat, j: int) returns (top: nat)
    requires i < |s.code| && i + InstrSize(s.code, i) <= |s.code| && IsJump(s.code[i]) && InstrSize(s.code, i) >= 3
    requires Lies(p, m, s, i) && j in NodeAt(s, i).next
    ensures JumpTarget(p, m, top) == m.pc - i + j
  {
    hide GasCost, StackRequired, StackChange, NodeAt;
    assert p.exec[m.pc] == s.code[i] && p.exec[m.pc + 1] == s.code[i + 1] && p.exec[m.pc + 2] == s.code[i + 2];
    NodeNext(s, i);
    var succ := Successors(s.code, i);
    if s.code[i] == OP_RJUMPV {
      top := TableOperand(p, m, s, i, j);
    } else {
      top :| 0 <= top < |succ| && succ[top] == j;
    }
  }

  lemma TableOperand(p: Program, m: Machine, s: Section, i: nat, j: int) returns (top: nat)
    requires i < |s.code| && i + InstrSize(s.code, i) <= |s.code| && s.code[i] == OP_RJUMPV && InstrSize(s.code, i) >= 3
    requires Lies(p, m, s, i) && j in Successors(s.code, i)
    ensures JumpTarget(p, m, top) == m.pc - i + j
  {
    hide Lies, I16, Successors;
    SameByte(p, m, s, i, 0);
    SameByte(p, m, s, i, 1);
    var count := s.code[i + 1] as int;
    var x := TableEntry(s.code, i, j);
    if x == 0 {
      top := count;
      InBounds(p, m, s, i);
    } else {
      top := x - 1;
      SameEntry(p, m, s, i, top);
    }
  }

  /** Where control goes from an RJUMPV: on, or to an entry of its table. */
  lemma TableEntry(code: Code, i: nat, j: int) returns (x: nat)
    requires i < |code| && i + InstrSize(code, i) <= |code| && code[i] == OP_RJUMPV && j in Successors(code, i)
    ensures x <= TargetCount(code, i) && j == if x == 0 then i + InstrSize(code, i) else Target(code, i, x - 1)
  {
    x :| 0 <= x < |Successors(code, i)| && Successors(code, i)[x] == j;
  }

  lemma InBounds(p: Program, m: Machine, s: Section, i: nat)
    requires Lies(p, m, s, i)
    ensures i <= m.pc && m.pc - i + |s.code| <= |p.exec|
  {
  }

  lemma SameByte(p: Program, m: Machine, s: Section, i: nat, k: nat)
    requires Lies(p, m, s, i) && i + k < |s.code|
    ensures 0 <= m.pc && m.pc + k < |p.exec| && p.exec[m.pc + k] == s.code[i + k]
  {
    assert s.code[i + k] == p.exec[m.pc - i + (i + k)];
  }

  lemma SameEntry(p: Program, m: Machine, s: Section, i: nat, top: nat)
    requires Lies(p, m, s, i) && i + 3 + 2 * top < |s.code|
    ensures 0 <= m.pc && m.pc + 3 + 2 * top < |p.exec|
    ensures I16(p.exec, m.pc + 2 + 2 * top) == I16(s.code, i + 2 + 2 * top)
    ensures i <= m.pc && m.pc - i + |s.code| <= |p.exec|
  {
    SameByte(p, m, s, i, 2 + 2 * top);
    SameByte(p, m, s, i, 3 + 2 * top);
  }

  /** An instruction with an edge that is no jump runs on into the next one. */
  lemma PlainEdge(s: Section, i: nat, j: int)
    requires i < |s.code| && i + InstrSize(s.code, i) <= |s.code| && !IsJump(s.code[i])
    requires j in NodeAt(s, i).next
    ensures j == i + InstrSize(s.code, i) == i + 1 + ImmediateSize(s.code[i]) && !IsTerminating(s.code[i])
  {
    hide NodeAt;
    NodeNext(s, i);
  }

  /** A frame of section `k`, running at an instruction the validator computed the height of. */
  ghost predicate At(x: Image, f: Frame, depth: nat, m: Machine) {
    && Fits(x.p, f) && f.section < |x.sections| && |m.callStack| == depth
    && Placed(x.p, x.heights, f.section, m.pc, m.height - f.base)
  }

  /** An edge of the graph, other than over a call, can be taken where the guard passes. */
  lemma EdgeTaken(x: Image, f: Frame, depth: nat, m: Machine, i: int, j: int) returns (input: Input)
    requires Ready(x) && At(x, f, depth, m) && i == m.pc - x.p.offsets[f.section]
    requires Passes(x, f.section, f.base, depth, i) && x.sections[f.section][i] != OP_CALLF
    requires Edge(x, f.section, i, j)
    ensures var r := Step(x.p, m, input);
            r.Next? && r.m.pc == x.p.offsets[f.section] + j && r.m.callStack == m.callStack && At(x, f, depth, r.m)
  {
    hide Loaded, Checked, Instrs, JumpsOk, Placed, NodeAt, GasCost, StackRequired, StackChange, DefinedInEof;
    hide JumpTarget;
    ChecksPass(x.p, x.sections, x.heights, m, f);
    var i', s := PlacedFacts(x.p, x.sections, x.heights, f.section, m.pc, m.height - f.base);
    var op := s.code[i];
    assert x.p.exec[m.pc] == op;
    FlowNode(s, i);
    var top: nat := 0;
    if IsJump(op) {
      top := EdgeOperand(x.p, m, s, i, j);
    } else {
      PlainEdge(s, i, j);
      CallTraits();
      HeightIs(x, f, m);
    }
    input := Input(top, false);
    LocalStep(x.p, x.sections, x.heights, m, f, input);
  }

  lemma HeightIs(x: Image, f: Frame, m: Machine)
    requires Placed(x.p, x.heights, f.section, m.pc, m.height - f.base)
    ensures m.height == f.base + x.heights[f.section][m.pc - x.p.offsets[f.section]]
  {
  }

  /** A call whose guards pass enters the callee. */
  lemma CallEntered(x: Image, f: Frame, depth: nat, m: Machine, i: int) returns (callee: Frame)
    requires Ready(x) && At(x, f, depth, m) && i == m.pc - x.p.offsets[f.section]
    requires Passes(x, f.section, f.base, depth, i) && x.sections[f.section][i] == OP_CALLF
    ensures depth < STACK_LIMIT && callee.section < |x.sections| && Returns(x, callee.section, callee.base, depth + 1)
    ensures var r := Step(x.p, m, Input(0, false));
            && r.Next? && At(x, callee, depth + 1, r.m) && r.m.pc == x.p.offsets[callee.section]
            && r.m.callStack == m.callStack + [m.pc + 3]
    ensures Placed(x.p, x.heights, f.section, m.pc + 3, callee.base + x.p.types[callee.section].outputs as int - f.base)
  {
    hide SectionLoaded, Checked, NodeAt, InstrSize, DefinedInEof, Instrs, Placed, Returns;
    ChecksPass(x.p, x.sections, x.heights, m, f);
    var _, s := PlacedFacts(x.p, x.sections, x.heights, f.section, m.pc, m.height - f.base);
    assert x.p.exec[m.pc] == s.code[i];
    CallFacts(s, i);
    HeightIs(x, f, m);
    assert x.p.exec[m.pc + 1] == s.code[i + 1] && x.p.exec[m.pc + 2] == s.code[i + 2];
    var index := U16(s.code, i + 1);
    assert x.p.offsets[f.section] + (i + 3) == m.pc + 3;
    callee := Frame(index, m.height - x.p.types[index].inputs as int);
    EntryPlaced(x.p, x.sections, x.heights, index);
  }

  /** At a RETF the frame holds its outputs, and the step goes back to the caller. */
  lemma ReturnTaken(x: Image, f: Frame, depth: nat, m: Machine)
    requires Ready(x) && At(x, f, depth, m) && 0 <= m.pc < |x.p.exec| && x.p.exec[m.pc] == OP_RETF
    ensures m.height == f.base + x.p.types[f.section].outputs as int
    ensures Step(x.p, m, Input(0, false)) ==
              if depth == 0 then Broken else Next(Machine(m.callStack[depth - 1], m.height, m.callStack[..depth - 1]))
  {
    hide SectionLoaded, Checked, InstrSize, DefinedInEof, Instrs, Placed, Fits;
    ChecksPass(x.p, x.sections, x.heights, m, f);
    var i, s := PlacedFacts(x.p, x.sections, x.heights, f.section, m.pc, m.height - f.base);
    assert x.p.exec[m.pc] == s.code[i];
    CallTraits();
  }

  /** A section that can return runs to a RETF. */
  lemma {:induction false} ReturnsRuns(x: Image, f: Frame, depth: nat, m: Machine) returns (inputs: seq<Input>)
    requires Ready(x) && At(x, f, depth, m) && m.pc == x.p.offsets[f.section]
    requires Returns(x, f.section, f.base, depth)
    ensures var r := Run(x.p, m, inputs);
            && r.Next? && At(x, f, depth, r.m) && r.m.callStack == m.callStack
            && 0 <= r.m.pc < |x.p.exec| && x.p.exec[r.m.pc] == OP_RETF
    decreases STACK_LIMIT - depth, 2
  {
    hide SectionLoaded, Checked, InstrSize, DefinedInEof, Instrs, Placed, Fits, NodeAt, Step, Walk;
    var k := f.section;
    var path, i :| Walk(x, k, f.base, depth, path, i) && 0 <= i < |x.sections[k]| && x.sections[k][i] == OP_RETF;
    inputs := WalkRuns(x, f, depth, m, path, i);
    var r := Run(x.p, m, inputs);
    var i', s := PlacedFacts(x.p, x.sections, x.heights, k, r.m.pc, r.m.height - f.base);
  }

  /** A walk can be run, the calls on it included. */
  lemma {:induction false} WalkRuns(x: Image, f: Frame, depth: nat, m: Machine, path: seq<int>, i: int)
    returns (inputs: seq<Input>)
    requires Ready(x) && At(x, f, depth, m) && m.pc == x.p.offsets[f.section]
    requires Walk(x, f.section, f.base, depth, path, i)
    ensures var r := Run(x.p, m, inputs);
            r.Next? && At(x, f, depth, r.m) && r.m.callStack == m.callStack && r.m.pc == x.p.offsets[f.section] + i
    decreases STACK_LIMIT - depth, 1, |path|
  {
    hide Loaded, Checked, Flow, NodeAt, Step, Passes, Placed, Fits, Edge;
    inputs := [];
    if |path| > 1 {
      var last := path[|path| - 2];
      PathBefore(x, f, depth, path, i);
      inputs := WalkRuns(x, f, depth, m, path[..|path| - 1], last);
      var m' := Run(x.p, m, inputs).m;
      var more := EdgeRuns(x, f, depth, m', last, i);
      RunConcat(x.p, m, inputs, more);
      inputs := inputs + more;
    }
  }

  lemma PathBefore(x: Image, f: Frame, depth: nat, path: seq<int>, i: int)
    requires f.section < |x.sections| && Walk(x, f.section, f.base, depth, path, i) && |path| > 1
    ensures var last := path[|path| - 2];
            && Walk(x, f.section, f.base, depth, path[..|path| - 1], last)
            && Passes(x, f.section, f.base, depth, last)
            && Edge(x, f.section, last, i)
  {
    hide Checked, Flow, NodeAt, Passes;
    assert path[|path| - 2 + 1] in Flow(SectionAt(x, f.section)).nodes[path[|path| - 2]].next;
  }

  /** So can one edge of it. */
  lemma {:induction false} EdgeRuns(x: Image, f: Frame, depth: nat, m: Machine, i: int, j: int)
    returns (inputs: seq<Input>)
    requires Ready(x) && At(x, f, depth, m) && i == m.pc - x.p.offsets[f.section]
    requires Passes(x, f.section, f.base, depth, i) && Edge(x, f.section, i, j)
    ensures var r := Run(x.p, m, inputs);
            r.Next? && At(x, f, depth, r.m) && r.m.callStack == m.callStack && r.m.pc == x.p.offsets[f.section] + j
    decreases STACK_LIMIT - depth, 0
  {
    hide Loaded, Edge, Step, Passes, Returns, Placed, Fits;
    PassesInCode(x, f.section, f.base, depth, i);
    if x.sections[f.section][i] == OP_CALLF {
      var callee := CallEntered(x, f, depth, m, i);
      var enter := Input(0, false);
      var m1 := Step(x.p, m, enter).m;
      var body := ReturnsRuns(x, callee, depth + 1, m1);
      var m2 := Run(x.p, m1, body).m;
      ReturnTaken(x, callee, depth + 1, m2);
      RunOne(x.p, m, enter);
      RunOne(x.p, m2, enter);
      RunConcat(x.p, m, [enter], body);
      RunConcat(x.p, m, [enter] + body, [enter]);
      inputs := [enter] + body + [enter];
      CallEdge(x, f, i, j);
    } else {
      var input := EdgeTaken(x, f, depth, m, i, j);
      RunOne(x.p, m, input);
      inputs := [input];
    }
  }

  lemma PassesInCode(x: Image, k: nat, base: int, depth: nat, i: int)
    requires k < |x.sections| && Passes(x, k, base, depth, i)
    ensures 0 <= i < |x.sections[k]|
  {
  }

  lemma CallEdge(x: Image, f: Frame, i: int, j: int)
    requires Edge(x, f.section, i, j) && 0 <= i < |x.sections[f.section]| && x.sections[f.section][i] == OP_CALLF
    ensures j == i + 3
  {
    hide GasCost, StackRequired, StackChange, Starts;
    var s := SectionAt(x, f.section);
    FlowNode(s, i);
    PlainEdge(s, i, j);
  }

  // ----- A run that breaks has returned from the first section -----

  /** Control of frame `f`, with `depth` calls below it, has come to `i` along `path`. */
  ghost predicate Came(x: Image, f: Frame, depth: nat, path: seq<int>, i: int) {
    f.section < |x.sections| && Walk(x, f.section, f.base, depth, path, i)
  }

  /** The CALLF at `i` has called `callee` from `f`: its guards have passed, and it goes on at `i + 3` if that
      returns. */
  ghost predicate Called(x: Image, f: Frame, depth: nat, i: int, callee: Frame) {
    && callee.section < |x.sections| && Edge(x, f.section, i, i + 3)
    && (Returns(x, callee.section, callee.base, depth + 1) ==> Passes(x, f.section, f.base, depth, i))
  }

  /** Frame `f` has come to the position `pc` of the executable code. */
  ghost predicate Running(x: Image, f: Frame, depth: nat, path: seq<int>, pc: int) {
    f.section < |x.sections| && f.section < |x.p.offsets| && Came(x, f, depth, path, pc - x.p.offsets[f.section])
  }

  /** Frame `f` waits at the call before `ret` for `callee`. */
  ghost predicate Waiting(x: Image, f: Frame, depth: nat, path: seq<int>, ret: int, callee: Frame) {
    Running(x, f, depth, path, ret - 3) && Called(x, f, depth, ret - 3 - x.p.offsets[f.section], callee)
  }

  /** How every frame of the machine got to where it is. */
  ghost predicate Traced(x: Image, m: Machine, frames: seq<Frame>, paths: seq<seq<int>>) {
    && |frames| == |paths| == |m.callStack| + 1 && frames[0] == Frame(0, 0)
    && (forall d, e :: 0 <= d < |m.callStack| && e == d + 1 ==>
          Waiting(x, frames[d], d, paths[d], m.callStack[d], frames[e]))
    && Running(x, frames[|m.callStack|], |m.callStack|, paths[|m.callStack|], m.pc)
  }

  lemma Arrive(x: Image, f: Frame, depth: nat, path: seq<int>, i: int, j: int)
    requires Came(x, f, depth, path, i) && Passes(x, f.section, f.base, depth, i)
    requires Edge(x, f.section, i, j)
    ensures Came(x, f, depth, path + [j], j)
  {
    hide Checked, Flow, NodeAt, Passes;
  }

  lemma Enter(x: Image, f: Frame, depth: nat)
    requires Ready(x) && f.section < |x.sections|
    ensures Came(x, f, depth, [0], 0)
  {
    hide Passes, NodeAt, JumpsOk, WellFormed, TypesOk, IsMaximum, AllReachable;
    var k := f.section;
    assert SectionLoaded(x.p, k, x.sections[k], x.heights[k]);
    assert Path(Flow(SectionAt(x, k)), [0], 0);
  }

  /** A step inside a frame has passed the guard of its instruction. */
  lemma LocalPasses(x: Image, f: Frame, depth: nat, m: Machine, input: Input)
    requires Ready(x) && At(x, f, depth, m) && 0 <= m.pc < |x.p.exec|
    requires x.p.exec[m.pc] != OP_CALLF && x.p.exec[m.pc] != OP_RETF && Step(x.p, m, input).Next?
    ensures var i, j := m.pc - x.p.offsets[f.section], Step(x.p, m, input).m.pc - x.p.offsets[f.section];
            Edge(x, f.section, i, j) && Passes(x, f.section, f.base, depth, i)
  {
    hide Loaded, Checked, Instrs, JumpsOk, NodeAt, GasCost, StackRequired, StackChange, DefinedInEof, JumpTarget;
    hide Returns;
    var i, s := PlacedFacts(x.p, x.sections, x.heights, f.section, m.pc, m.height - f.base);
    assert x.p.exec[m.pc] == s.code[i];
    LocalStep(x.p, x.sections, x.heights, m, f, input);
    FlowNode(s, i);
    var r := Step(x.p, m, input);
    var j, _ := PlacedFacts(x.p, x.sections, x.heights, f.section, r.m.pc, r.m.height - f.base);
    FlowNode(s, j);
    OperandByte(s, i);
  }

  lemma OperandByte(s: Section, i: nat)
    requires i < |s.code| && i + InstrSize(s.code, i) <= |s.code|
    ensures s.code[i] == OP_DUPN || s.code[i] == OP_SWAPN ==> i + 1 < |s.code|
  {
  }

  /** A call that has been entered has passed its guards. */
  lemma CallPasses(x: Image, f: Frame, depth: nat, m: Machine, callee: Frame)
    requires Ready(x) && At(x, f, depth, m) && CalledFrom(x.p, m, callee) && x.p.exec[m.pc] == OP_CALLF
    requires CallOrReturn(x.p, m).Next?
    ensures Called(x, f, depth, m.pc - x.p.offsets[f.section], callee)
    ensures CallOrReturn(x.p, m).m == Machine(x.p.offsets[callee.section], m.height, m.callStack + [m.pc + 3])
  {
    hide Checked, Instrs, JumpsOk, NodeAt, InstrSize, SectionLoaded, DefinedInEof, Returns;
    var i, s := PlacedFacts(x.p, x.sections, x.heights, f.section, m.pc, m.height - f.base);
    assert x.p.exec[m.pc] == s.code[i];
    CallFacts(s, i);
    assert x.p.exec[m.pc + 1] == s.code[i + 1] && x.p.exec[m.pc + 2] == s.code[i + 2];
    FlowNode(s, i);
    var j, _ := PlacedFacts(x.p, x.sections, x.heights, f.section, x.p.offsets[f.section] + (i + 3),
                            m.height - f.base + NodeAt(s, i).change);
    FlowNode(s, j);
  }

  lemma TopAt(x: Image, m: Machine, frames: seq<Frame>)
    requires Ready(x) && WellTyped(x.p, x.heights, m, frames)
    ensures At(x, frames[|frames| - 1], |m.callStack|, m)
  {
    hide SectionLoaded, Placed;
  }

  /** A frame that has come to a RETF can return. */
  lemma CameToReturn(x: Image, f: Frame, depth: nat, m: Machine, path: seq<int>)
    requires Ready(x) && At(x, f, depth, m) && 0 <= m.pc < |x.p.exec| && x.p.exec[m.pc] == OP_RETF
    requires Came(x, f, depth, path, m.pc - x.p.offsets[f.section])
    ensures Returns(x, f.section, f.base, depth)
  {
    hide Loaded, Checked, Instrs, NodeAt, InstrSize, DefinedInEof, Walk, Placed, Fits;
    var i, s := PlacedFacts(x.p, x.sections, x.heights, f.section, m.pc, m.height - f.base);
    assert x.p.exec[m.pc] == s.code[i];
  }

  /** A call that can return lets its caller go on. */
  lemma BackInCaller(x: Image, f: Frame, depth: nat, path: seq<int>, i: int, callee: Frame)
    requires Came(x, f, depth, path, i) && Called(x, f, depth, i, callee)
    requires Returns(x, callee.section, callee.base, depth + 1)
    ensures Came(x, f, depth, path + [i + 3], i + 3)
  {
    hide Walk, Passes, Returns, Edge;
    Arrive(x, f, depth, path, i, i + 3);
  }

  lemma CallWaits(x: Image, m: Machine, f: Frame, path: seq<int>, callee: Frame)
    requires Ready(x) && At(x, f, |m.callStack|, m) && Running(x, f, |m.callStack|, path, m.pc)
    requires 0 <= m.pc < |x.p.exec| && x.p.exec[m.pc] == OP_CALLF
    requires CallOrReturn(x.p, m).Next? && CalledFrom(x.p, m, callee)
    ensures var m' := CallOrReturn(x.p, m).m;
            && m'.callStack == m.callStack + [m.pc + 3]
            && Waiting(x, f, |m.callStack|, path, m.pc + 3, callee) && Running(x, callee, |m'.callStack|, [0], m'.pc)
  {
    hide SectionLoaded, At, Came, Called, Returns, Passes, Flow, CallOrReturn, CalledFrom;
    CallPasses(x, f, |m.callStack|, m, callee);
    CalleeExists(x, f, |m.callStack|, m.pc - x.p.offsets[f.section], callee);
    Enter(x, callee, |m.callStack| + 1);
  }

  lemma CallTraces(x: Image, m: Machine, frames: seq<Frame>, paths: seq<seq<int>>, m': Machine, callee: Frame)
    requires Ready(x) && Traced(x, m, frames, paths) && At(x, frames[|m.callStack|], |m.callStack|, m)
    requires 0 <= m.pc < |x.p.exec| && x.p.exec[m.pc] == OP_CALLF
    requires CallOrReturn(x.p, m) == Next(m') && CalledFrom(x.p, m, callee)
    ensures Traced(x, m', frames + [callee], paths + [[0]])
  {
    hide Waiting, Running, CallOrReturn, CalledFrom, At, Loaded;
    CallWaits(x, m, frames[|m.callStack|], paths[|m.callStack|], callee);
  }

  lemma Resumed(x: Image, f: Frame, depth: nat, path: seq<int>, ret: int, callee: Frame) returns (path': seq<int>)
    requires Waiting(x, f, depth, path, ret, callee) && callee.section < |x.sections|
    requires Returns(x, callee.section, callee.base, depth + 1)
    ensures Running(x, f, depth, path', ret)
  {
    hide Came, Called, Returns;
    var i := ret - 3 - x.p.offsets[f.section];
    BackInCaller(x, f, depth, path, i, callee);
    path' := path + [i + 3];
  }

  lemma ReturnTraces(x: Image, m: Machine, frames: seq<Frame>, paths: seq<seq<int>>) returns (paths': seq<seq<int>>)
    requires Ready(x) && Traced(x, m, frames, paths) && m.callStack != []
    requires var f := frames[|m.callStack|]; f.section < |x.sections| && Returns(x, f.section, f.base, |m.callStack|)
    ensures var n := |m.callStack|;
            Traced(x, Machine(m.callStack[n - 1], m.height, m.callStack[..n - 1]), frames[..n], paths')
  {
    hide Waiting, Running, Loaded, Returns;
    var n := |m.callStack|;
    var path := Resumed(x, frames[n - 1], n - 1, paths[n - 1], m.callStack[n - 1], frames[n]);
    paths' := paths[..n - 1] + [path];
  }

  lemma Moved(x: Image, m: Machine, f: Frame, path: seq<int>, input: Input) returns (path': seq<int>)
    requires Ready(x) && At(x, f, |m.callStack|, m) && Running(x, f, |m.callStack|, path, m.pc)
    requires 0 <= m.pc < |x.p.exec| && x.p.exec[m.pc] != OP_CALLF && x.p.exec[m.pc] != OP_RETF
    requires Step(x.p, m, input).Next?
    ensures Running(x, f, |m.callStack|, path', Step(x.p, m, input).m.pc)
  {
    hide Loaded, At, Came, Passes, Edge, Step;
    LocalPasses(x, f, |m.callStack|, m, input);
    var i, j := m.pc - x.p.offsets[f.section], Step(x.p, m, input).m.pc - x.p.offsets[f.section];
    Arrive(x, f, |m.callStack|, path, i, j);
    path' := path + [j];
  }

  lemma LocalTraces(x: Image, m: Machine, frames: seq<Frame>, paths: seq<seq<int>>, input: Input)
    returns (paths': seq<seq<int>>)
    requires Ready(x) && Traced(x, m, frames, paths) && At(x, frames[|m.callStack|], |m.callStack|, m)
    requires 0 <= m.pc < |x.p.exec| && x.p.exec[m.pc] != OP_CALLF && x.p.exec[m.pc] != OP_RETF
    requires var r := Step(x.p, m, input); r.Next? && r.m.callStack == m.callStack
    ensures Traced(x, Step(x.p, m, input).m, frames, paths')
  {
    hide Waiting, Running, Loaded, At, Step;
    var n := |m.callStack|;
    var path := Moved(x, m, frames[n], paths[n], input);
    paths' := paths[..n] + [path];
  }

  /** Every step can be traced, and one that breaks shows that the first section can return. */
  lemma StepTraces(x: Image, m: Machine, frames: seq<Frame>, paths: seq<seq<int>>, input: Input)
    returns (frames': seq<Frame>, paths': seq<seq<int>>)
    requires Ready(x) && WellTyped(x.p, x.heights, m, frames) && Traced(x, m, frames, paths)
    ensures var r := Step(x.p, m, input);
            && (r == Broken ==> |x.sections| > 0 && Returns(x, 0, 0, 0))
            && (r.Next? ==> WellTyped(x.p, x.heights, r.m, frames') && Traced(x, r.m, frames', paths'))
  {
    hide Loaded, WellTyped, Came, Called, Returns, Passes, Flow, CallOrReturn, JumpTarget, DupSwap, CalledFrom, Placed;
    hide DefinedInEof, StackChange, StackRequired, Fits;
    var n := |m.callStack|;
    var f := frames[n];
    TopAt(x, m, frames);
    ChecksPass(x.p, x.sections, x.heights, m, f);
    frames', paths' := frames, paths;
    var r := Step(x.p, m, input);
    if x.p.exec[m.pc] == OP_CALLF {
      CallTraits();
      var callee := CallStep(x.p, x.sections, x.heights, m, frames);
      if r.Next? {
        CallTraces(x, m, frames, paths, r.m, callee);
        frames', paths' := frames + [callee], paths + [[0]];
      }
    } else if x.p.exec[m.pc] == OP_RETF {
      CallTraits();
      CameToReturn(x, f, n, m, paths[n]);
      if n > 0 {
        ReturnStep(x.p, x.sections, x.heights, m, frames);
        ReturnPops(x.p, m);
        frames' := frames[..n];
        paths' := ReturnTraces(x, m, frames, paths);
      } else {
        EmptyReturn(x.p, m);
      }
    } else {
      LocalStep(x.p, x.sections, x.heights, m, f, input);
      if r.Next? {
        LocalTyped(x, m, frames, r.m);
        paths' := LocalTraces(x, m, frames, paths, input);
      }
    }
  }

  lemma CalleeExists(x: Image, f: Frame, depth: nat, i: int, callee: Frame)
    requires Called(x, f, depth, i, callee)
    ensures callee.section < |x.sections|
  {
  }

  lemma ReturnPops(p: Program, m: Machine)
    requires 0 <= m.pc < |p.exec| && p.exec[m.pc] == OP_RETF && m.callStack != []
    ensures var n := |m.callStack|;
            CallOrReturn(p, m) == Next(Machine(m.callStack[n - 1], m.height, m.callStack[..n - 1]))
  {
  }

  lemma LocalTyped(x: Image, m: Machine, frames: seq<Frame>, m': Machine)
    requires WellTyped(x.p, x.heights, m, frames) && m'.callStack == m.callStack
    requires var f := frames[|frames| - 1]; Placed(x.p, x.heights, f.section, m'.pc, m'.height - f.base)
    ensures WellTyped(x.p, x.heights, m', frames)
  {
    hide Placed, Linked, Fits;
  }

  lemma {:induction false} RunTraces(x: Image, m: Machine, frames: seq<Frame>, paths: seq<seq<int>>, inputs: seq<Input>)
    requires Ready(x) && WellTyped(x.p, x.heights, m, frames) && Traced(x, m, frames, paths)
    requires Run(x.p, m, inputs) == Broken
    ensures |x.sections| > 0 && Returns(x, 0, 0, 0)
    decreases |inputs|
  {
    hide Loaded, WellTyped, Traced, Returns, Step;
    var frames', paths' := StepTraces(x, m, frames, paths, inputs[0]);
    var r := Step(x.p, m, inputs[0]);
    if r.Next? {
      RunTraces(x, r.m, frames', paths', inputs[1..]);
    }
  }

  // ----- The exact condition -----

  /** Some run breaks if and only if the first section can return: its graph has a path to a RETF on which the depth of
      every DUPN and SWAPN is within the computed height, and every CALLF has room and calls a section that can
      return. */
  lemma BreaksIffReturns(x: Image)
    requires Ready(x)
    ensures |x.sections| > 0 && ((exists inputs :: Run(x.p, INITIAL, inputs) == Broken) <==> Returns(x, 0, 0, 0))
  {
    hide SectionLoaded, WellTyped, Returns, Run, Came, FirstIsPlain;
    var f := Frame(0, 0);
    InitialTyped(x.p, x.sections, x.heights);
    TopAt(x, INITIAL, [f]);
    if inputs :| Run(x.p, INITIAL, inputs) == Broken {
      Enter(x, f, 0);
      RunTraces(x, INITIAL, [f], [[0]], inputs);
    }
    if Returns(x, 0, 0, 0) {
      var inputs := ReturnsRuns(x, f, 0, INITIAL);
      var m, last := Run(x.p, INITIAL, inputs).m, Input(0, false);
      ReturnTaken(x, f, 0, m);
      RunOne(x.p, m, last);
      RunConcat(x.p, INITIAL, inputs, [last]);
    }
  }

  /** The same for containers: a valid container breaks in some run exactly when its first section can return. */
  lemma ContainerBreaksIffReturns(c: Code, h: SectionHeaders, heights: seq<map<int, int>>)
    requires ValidContainer(c, h) && Loaded(LoadedProgram(c, h), Sections(c, h), heights)
    ensures |Sections(c, h)| > 0
    ensures (exists inputs :: Run(LoadedProgram(c, h), INITIAL, inputs) == Broken) <==>
              Returns(Image(LoadedProgram(c, h), Sections(c, h), heights), 0, 0, 0)
  {
    BreaksIffReturns(Image(LoadedProgram(c, h), Sections(c, h), heights));
  }

  // ----- First sections without calls -----

  ghost predicate CallFree(code: Code) {
    forall i :: i in Instrs(code) ==> code[i] != OP_CALLF
  }

  /** The depth of every DUPN and SWAPN that `path` runs through is within the computed height. */
  ghost predicate DepthsFit(code: Code, heights: map<int, int>, path: seq<int>) {
    forall y :: 0 <= y < |path| - 1 ==> DepthFits(code, heights, path[y])
  }

  ghost predicate DepthFits(code: Code, heights: map<int, int>, i: int) {
    && i in heights && 0 <= i < |code|
    && (code[i] == OP_DUPN ==> i + 1 < |code| && heights[i] >= code[i + 1] as int + 1)
    && (code[i] == OP_SWAPN ==> i + 1 < |code| && heights[i] > code[i + 1] as int + 1)
  }

  lemma CallFreeWalk(x: Image, path: seq<int>, i: int)
    requires Ready(x) && CallFree(x.sections[0]) && Checked(SectionAt(x, 0))
    requires Path(Flow(SectionAt(x, 0)), path, i)
    ensures Walk(x, 0, 0, 0, path, i) <==> DepthsFit(x.sections[0], x.heights[0], path)
  {
    hide Checked, NodeAt, Instrs, SectionLoaded, Returns;
    forall y | 0 <= y < |path| - 1
      ensures Passes(x, 0, 0, 0, path[y]) <==> DepthFits(x.sections[0], x.heights[0], path[y])
    {
      assert path[y] in Flow(SectionAt(x, 0)).nodes;
    }
  }

  /** A first section without calls lets a run break if and only if its graph has a path to a RETF on which every DUPN
      and SWAPN reaches no deeper than the height computed for it. */
  lemma CallFreeBreaksIff(x: Image)
    requires Ready(x) && CallFree(x.sections[0])
    ensures Checked(SectionAt(x, 0))
    ensures (exists inputs :: Run(x.p, INITIAL, inputs) == Broken) <==>
              exists path, i :: Path(Flow(SectionAt(x, 0)), path, i) && DepthsFit(x.sections[0], x.heights[0], path)
                                && 0 <= i < |x.sections[0]| && x.sections[0][i] == OP_RETF
  {
    hide Checked, Flow, NodeAt, Instrs, Run, Path, DepthsFit, CallFree, Consistent, IsMaximum, Walk;
    assert SectionLoaded(x.p, 0, x.sections[0], x.heights[0]);
    BreaksIffReturns(x);
    forall path, i | Path(Flow(SectionAt(x, 0)), path, i)
      ensures Walk(x, 0, 0, 0, path, i) <==> DepthsFit(x.sections[0], x.heights[0], path)
    {
      CallFreeWalk(x, path, i);
    }
    forall path, i | Walk(x, 0, 0, 0, path, i)
      ensures Path(Flow(SectionAt(x, 0)), path, i)
    {
      WalkIsPath(x, path, i);
    }
  }

  lemma WalkIsPath(x: Image, path: seq<int>, i: int)
    requires |x.sections| > 0 && Walk(x, 0, 0, 0, path, i)
    ensures Checked(SectionAt(x, 0)) && Path(Flow(SectionAt(x, 0)), path, i)
  {
  }

  /** The section has none of the instructions with a run-time guard of their own. */
  ghost predicate Unguarded(code: Code) {
    forall i :: i in Instrs(code) ==> code[i] != OP_CALLF && code[i] != OP_DUPN && code[i] != OP_SWAPN
  }

  /** For an unguarded first section, whose code is all reachable, it is enough that a RETF is there. */
  lemma UnguardedBreaksIffReturns(x: Image)
    requires Ready(x) && Unguarded(x.sections[0])
    ensures (exists inputs :: Run(x.p, INITIAL, inputs) == Broken) <==> !NoReturn(x.sections[0])
  {
    hide Checked, Flow, NodeAt, Run, SectionLoaded;
    CallFreeBreaksIff(x);
    var code, s := x.sections[0], SectionAt(x, 0);
    forall path, i | Path(Flow(s), path, i)
      ensures i in Instrs(code) && DepthsFit(code, x.heights[0], path)
    {
      UnguardedPath(x, path, i);
    }
    if i :| i in Instrs(code) && code[i] == OP_RETF {
      var path := SomePath(x, i);
      assert DepthsFit(code, x.heights[0], path);
    }
  }

  lemma UnguardedPath(x: Image, path: seq<int>, i: int)
    requires Ready(x) && Unguarded(x.sections[0]) && Checked(SectionAt(x, 0)) && Path(Flow(SectionAt(x, 0)), path, i)
    ensures i in Instrs(x.sections[0]) && DepthsFit(x.sections[0], x.heights[0], path)
  {
    hide Checked, NodeAt, Instrs, AllReachable, IsMaximum;
    assert SectionLoaded(x.p, 0, x.sections[0], x.heights[0]);
    assert i == path[|path| - 1];
    forall y | 0 <= y < |path|
      ensures path[y] in Instrs(x.sections[0])
    {
      assert path[y] in Flow(SectionAt(x, 0)).nodes;
    }
  }

  lemma SomePath(x: Image, i: int) returns (path: seq<int>)
    requires Ready(x) && Checked(SectionAt(x, 0)) && i in Instrs(x.sections[0])
    ensures Path(Flow(SectionAt(x, 0)), path, i)
  {
    hide Checked, NodeAt, Instrs, Consistent, IsMaximum, Path;
    assert SectionLoaded(x.p, 0, x.sections[0], x.heights[0]);
    assert Reachable(Flow(SectionAt(x, 0)), i);
    path :| Path(Flow(SectionAt(x, 0)), path, i);
  }

  // ----- An accepted container that breaks -----

  /** Magic and version, section headers, one type (0, 0, 0), and a code section that consists of a RETF. */
  const RETURNS_AT_ONCE: Code :=
    [0xEF, 0x00, 0x01, 0x01, 0x00, 0x04, 0x02, 0x00, 0x01, 0x00, 0x01, 0x03, 0x00, 0x00, 0x00,
     0x00, 0x00, 0x00, 0x00, 0xb1]

  const ITS_HEADERS := SectionHeaders(4, [1], 0)

  function SingleReturn(): Section {
    Section([OP_RETF], 0, [CodeType(0, 0, 0)])
  }

  lemma SingleReturnTyped()
    ensures Typed(SingleReturn(), map[0 := 0])
  {
    hide Checked, Flow, Instrs, NodeAt, SingleReturn;
    var heights: map<int, int> := map[0 := 0];
    SingleReturnFlow();
    var g := Flow(SingleReturn());
    assert Path(g, [0], 0);
    assert IsMaximum(heights, 0) by { assert heights[0] == 0; }
    assert Consistent(g, heights);
    SingleReturnType();
  }

  lemma SingleReturnType()
    ensures SingleReturn().index < |SingleReturn().types|
    ensures SingleReturn().types[SingleReturn().index] == CodeType(0, 0, 0)
  {
  }

  lemma SingleReturnFlow()
    ensures Checked(SingleReturn())
    ensures Flow(SingleReturn()) == Graph(map[0 := Node(0, 0, true, true, [], 1)], 1, 0, 0)
  {
    hide GasCost, Starts, Checked;
    SingleReturnChecked();
    var s := SingleReturn();
    assert Successors(s.code, 0) == [];
    assert NodeAt(s, 0) == Node(0, 0, true, true, [], 1);
    assert Flow(s).nodes == map[0 := Node(0, 0, true, true, [], 1)];
  }

  lemma SingleReturnChecked()
    ensures Instrs([OP_RETF]) == {0} && Checked(SingleReturn())
  {
    assert Starts([OP_RETF], 1) == {};
  }

  lemma ItsEncoding()
    ensures Encodable(ITS_HEADERS)
    ensures Encode(ITS_HEADERS) == [TYPE_SECTION, 0, 4, CODE_SECTION, 0, 1, 0, 1, DATA_SECTION, 0, 0, TERMINATOR]
  {
    assert EncodeSizes([1]) == [0, 1] by { assert EncodeSizes([]) == []; }
  }

  lemma ItsLayout()
    ensures Layout(RETURNS_AT_ONCE, ITS_HEADERS)
  {
    hide Encode, EncodeSizes;
    ItsEncoding();
    assert RETURNS_AT_ONCE[3..15] == [TYPE_SECTION, 0, 4, CODE_SECTION, 0, 1, 0, 1, DATA_SECTION, 0, 0, TERMINATOR];
    assert Sum([1]) == 1;
  }

  lemma ItsParts()
    requires Layout(RETURNS_AT_ONCE, ITS_HEADERS)
    ensures Sections(RETURNS_AT_ONCE, ITS_HEADERS) == [[OP_RETF]]
    ensures HeaderOf(RETURNS_AT_ONCE, ITS_HEADERS).types == [CodeType(0, 0, 0)]
    ensures HeaderOf(RETURNS_AT_ONCE, ITS_HEADERS).codeOffsets == [19]
  {
    hide Encode, EncodeSizes, Layout;
    var c, h := RETURNS_AT_ONCE, ITS_HEADERS;
    assert h.codeSizes[..0] == [];
    assert TypeAt(c, 15) == CodeType(0, 0, 0);
    assert Sections(c, h)[0] == c[19..20] == [OP_RETF];
  }

  /** Soundness needs its condition: the validator accepts these 20 bytes, and the run pops an empty call stack. */
  lemma ReturnFromFirstSection()
    ensures ValidContainer(RETURNS_AT_ONCE, ITS_HEADERS)
    ensures Run(LoadedProgram(RETURNS_AT_ONCE, ITS_HEADERS), INITIAL, [Input(0, false)]) == Broken
  {
    hide Layout, Sections, HeaderOf, Typed, Encode;
    ItsLayout();
    ItsParts();
    SingleReturnTyped();
    var c, h := RETURNS_AT_ONCE, ITS_HEADERS;
    assert SectionOf(c, h, 0) == SingleReturn();
    ItsRun();
  }

  lemma ItsRun()
    requires Layout(RETURNS_AT_ONCE, ITS_HEADERS)
    ensures Run(LoadedProgram(RETURNS_AT_ONCE, ITS_HEADERS), INITIAL, [Input(0, false)]) == Broken
  {
    hide Layout, Encode;
    ItsParts();
    var p := LoadedProgram(RETURNS_AT_ONCE, ITS_HEADERS);
    assert p.exec == [OP_RETF];
    RunOne(p, INITIAL, Input(0, false));
  }
}
