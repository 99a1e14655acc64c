/** The baseline interpreter on EOF code (baseline.cpp `check_requirements`, `invoke`, `dispatch`;
    instructions.hpp `rjump`, `rjumpi`, `rjumpv`, `callf`, `retf`, `dupn`, `swapn`) and the proof that
    validated code keeps it inside its code, at the computed stack heights and within the stack limit. */
module EofRuntime {
  import opened Bytes
  import opened Opcodes
  import opened EofCode
  import opened FlowGraph
  import opened EofStack
  import opened EofHeader
  import opened EofContainer

  /** The part of the execution state that control depends on: position in the executable code, stack height,
      return positions. */
  datatype Machine = Machine(pc: int, height: int, callStack: seq<int>)

  /** What the rest of the machine contributes to one instruction: the item it pops, if control depends on it,
      and whether it fails for lack of gas or for a reason of its own. */
  datatype Input = Input(top: nat, fails: bool)

  datatype Outcome =
    | Next(m: Machine)
    | Halted             // a terminating instruction ran
    | OwnFailure         // out of gas, or the instruction's own failure
    | CallOverflow       // the run-time guards of CALLF
    | DepthFailure       // the run-time guards of DUPN and SWAPN
    | CheckFailed        // check_requirements: undefined instruction, stack overflow or stack underflow
    | Broken             // a read outside the code, the types or the call stack

  /** Executable code, section offsets relative to it, and types. */
  datatype Program = Program(exec: Code, offsets: seq<int>, types: seq<CodeType>)

  /** `rjump`, `rjumpi`, `rjumpv`: where control goes, relative jumps counting from the instruction's end. */
  function JumpTarget(p: Program, m: Machine, top: nat): int
    requires 0 <= m.pc && m.pc + 2 < |p.exec|
    requires p.exec[m.pc] != OP_RJUMP && p.exec[m.pc] != OP_RJUMPI ==>
               m.pc + 2 + 2 * p.exec[m.pc + 1] as int <= |p.exec|
  {
    var op := p.exec[m.pc];
    if op == OP_RJUMP || (op == OP_RJUMPI && top != 0) then m.pc + 3 + I16(p.exec, m.pc + 1)
    else if op == OP_RJUMPI then m.pc + 3
    else
      var count := p.exec[m.pc + 1] as int;
      var post := m.pc + 2 + 2 * count;
      if top >= count then post else post + I16(p.exec, m.pc + 2 + 2 * top)
  }

  /** `callf` and `retf`. */
  function CallOrReturn(p: Program, m: Machine): Outcome
    requires 0 <= m.pc < |p.exec|
  {
    if p.exec[m.pc] == OP_RETF then
      if m.callStack == [] then Broken
      else Next(Machine(m.callStack[|m.callStack| - 1], m.height, m.callStack[..|m.callStack| - 1]))
    else if m.pc + 2 >= |p.exec| then Broken
    else if U16(p.exec, m.pc + 1) >= |p.types| || U16(p.exec, m.pc + 1) >= |p.offsets| then Broken
    else
      var index := U16(p.exec, m.pc + 1);
      if m.height + p.types[index].maxStackHeight > STACK_LIMIT then CallOverflow
      else if |m.callStack| >= STACK_LIMIT then CallOverflow
      else Next(Machine(p.offsets[index], m.height, m.callStack + [m.pc + 3]))
  }

  /** `dupn` and `swapn`, whose depth is checked against the whole stack at run time. */
  function DupSwap(p: Program, m: Machine): Outcome
    requires 0 <= m.pc < |p.exec|
  {
    if m.pc + 1 >= |p.exec| then Broken
    else
      var n := p.exec[m.pc + 1] as int + 1;
      if p.exec[m.pc] == OP_DUPN then
        if m.height < n then DepthFailure else Next(Machine(m.pc + 2, m.height + 1, m.callStack))
      else
        if m.height <= n then DepthFailure else Next(Machine(m.pc + 2, m.height, m.callStack))
  }

  predicate IsJump(op: byte) { op == OP_RJUMP || op == OP_RJUMPI || op == OP_RJUMPV }

  /** One turn of the dispatch loop. The original looks up the cost table, and so refuses undefined instructions, only
      for opcodes whose cost differs between revisions; among the others, those undefined in EOF code would run.
      Validated code contains none of them. */
  function Step(p: Program, m: Machine, input: Input): Outcome {
    if !(0 <= m.pc < |p.exec|) then Broken else
      var op := p.exec[m.pc];
      if !DefinedInEof(op) then CheckFailed
      else if StackChange(op) > 0 && m.height == STACK_LIMIT then CheckFailed
      else if m.height < StackRequired(op) then CheckFailed
      else if input.fails then OwnFailure
      else if IsJump(op) then
        if m.pc + 2 >= |p.exec| then Broken
        else if op == OP_RJUMPV && m.pc + 2 + 2 * p.exec[m.pc + 1] as int > |p.exec| then Broken
        else Next(Machine(JumpTarget(p, m, input.top), m.height + StackChange(op), m.callStack))
      else if op == OP_CALLF || op == OP_RETF then CallOrReturn(p, m)
      else if op == OP_DUPN || op == OP_SWAPN then DupSwap(p, m)
      else if IsTerminating(op) then Halted
      else Next(Machine(m.pc + 1 + ImmediateSize(op), m.height + StackChange(op), m.callStack))
  }

  /** The run driven by `inputs`. */
  function Run(p: Program, m: Machine, inputs: seq<Input>): Outcome
    decreases |inputs|
  {
    if inputs == [] then Next(m) else
      match Step(p, m, inputs[0])
      case Next(m') => Run(p, m', inputs[1..])
      case stop => stop
  }

  const INITIAL := Machine(0, 0, [])

  // ----- Validated programs -----

  /** Section `k` of `p` is `code`, valid with the height assignment `heights`. */
  ghost predicate SectionLoaded(p: Program, k: nat, code: Code, heights: map<int, int>)
    requires k < |p.offsets|
  {
    && 0 <= p.offsets[k] <= p.offsets[k] + |code| <= |p.exec|
    && p.exec[p.offsets[k]..p.offsets[k] + |code|] == code
    && Typed(Section(code, k, p.types), heights)
  }

  /** `p` holds `sections`, each with its height assignment. */
  ghost predicate Loaded(p: Program, sections: seq<Code>, heights: seq<map<int, int>>) {
    && 0 < |sections| == |p.offsets| == |p.types| == |heights|
    && p.offsets[0] == 0 && FirstIsPlain(p.types)
    && (forall k :: 0 <= k < |sections| ==> SectionLoaded(p, k, sections[k], heights[k]))
  }

  /** A call in progress: the section it runs and the height below its first input. */
  datatype Frame = Frame(section: nat, base: int)

  /** `pc` is an instruction of section `k`, and the validator computed height `h` for it. */
  ghost predicate Placed(p: Program, heights: seq<map<int, int>>, k: nat, pc: int, h: int) {
    && k < |heights| && k < |p.offsets|
    && pc - p.offsets[k] in heights[k] && heights[k][pc - p.offsets[k]] == h
  }

  /** A frame whose section's declared maximum fits in the stack above its base. */
  predicate Fits(p: Program, f: Frame) {
    f.section < |p.types| && 0 <= f.base && f.base + p.types[f.section].maxStackHeight <= STACK_LIMIT
  }

  /** The frame `caller`, when it is returned to at `pc` from `callee`, stands at the computed height. */
  ghost predicate Linked(p: Program, heights: seq<map<int, int>>, caller: Frame, pc: int, callee: Frame) {
    && callee.section < |p.types|
    && Placed(p, heights, caller.section, pc, callee.base + p.types[callee.section].outputs as int - caller.base)
  }

  /** The typing invariant: every frame stands at an instruction of its section at the computed height, and its
      section's maximum fits in the stack. */
  ghost predicate WellTyped(p: Program, heights: seq<map<int, int>>, m: Machine, frames: seq<Frame>) {
    && |frames| == |m.callStack| + 1 && |m.callStack| <= STACK_LIMIT
    && frames[0].section == 0
    && (forall k :: 0 <= k < |frames| ==> Fits(p, frames[k]))
    && (forall k :: 0 <= k < |m.callStack| ==> Linked(p, heights, frames[k], m.callStack[k], frames[k + 1]))
    && var top := frames[|frames| - 1];
       Placed(p, heights, top.section, m.pc, m.height - top.base)
  }

  lemma InstrFacts(code: Code, i: int)
    requires WellFormed(code) && i in Instrs(code)
    ensures i + InstrSize(code, i) <= |code| && DefinedInEof(code[i])
    ensures IsJump(code[i]) ==> InstrSize(code, i) >= 3
  {
    hide GasCost, Starts;
    assert InstrError(code, i) == EofCode.Success;
  }

  lemma FlowNode(s: Section, i: int)
    requires Checked(s) && i in Instrs(s.code)
    ensures i + InstrSize(s.code, i) <= |s.code| && i in Flow(s).nodes && Flow(s).nodes[i] == NodeAt(s, i)
    ensures Flow(s).outputs == s.types[s.index].outputs as int
  {
    InstrFacts(s.code, i);
    hide DefinedInEof, InstrSize, Starts, WellFormed, JumpsOk, NodeAt, TypesOk;
  }

  /** What the validator established for the instruction at `i` of a typed section. */
  lemma TypedFacts(s: Section, heights: map<int, int>, i: int)
    requires Typed(s, heights) && i in heights
    ensures i in Instrs(s.code) && i + InstrSize(s.code, i) <= |s.code| && DefinedInEof(s.code[i])
    ensures IsJump(s.code[i]) ==> InstrSize(s.code, i) >= 3
    ensures NodeAt(s, i).callOk && 0 <= NodeAt(s, i).required <= heights[i] <= s.types[s.index].maxStackHeight
    ensures NodeAt(s, i).isReturn ==> heights[i] + NodeAt(s, i).change == s.types[s.index].outputs as int
    ensures forall j :: j in NodeAt(s, i).next ==> j in heights && heights[j] == heights[i] + NodeAt(s, i).change
  {
    hide DefinedInEof, InstrSize, Starts, WellFormed, JumpsOk, NodeAt, TypesOk, Flow, AllReachable;
    InstrFacts(s.code, i);
    FlowNode(s, i);
    FlowTiled(s);
    assert RunsAt(Flow(s), i, heights[i]);
  }

  /** The same, for the instruction at position `pc` of the executable code. */
  lemma PlacedFacts(p: Program, sections: seq<Code>, heights: seq<map<int, int>>, k: nat, pc: int, h: int)
    returns (i: nat, s: Section)
    requires Loaded(p, sections, heights) && Placed(p, heights, k, pc, h)
    ensures k < |p.offsets| && k < |sections| && s == Section(sections[k], k, p.types) && Checked(s)
    ensures i == pc - p.offsets[k] && i in Instrs(s.code) && i + InstrSize(s.code, i) <= |s.code|
    ensures DefinedInEof(s.code[i]) && (IsJump(s.code[i]) ==> InstrSize(s.code, i) >= 3)
    ensures NodeAt(s, i).callOk && 0 <= NodeAt(s, i).required <= h <= p.types[k].maxStackHeight
    ensures NodeAt(s, i).isReturn ==> h + NodeAt(s, i).change == p.types[k].outputs as int
    ensures forall j :: j in NodeAt(s, i).next ==> Placed(p, heights, k, p.offsets[k] + j, h + NodeAt(s, i).change)
    ensures 0 <= p.offsets[k] && p.offsets[k] + |s.code| <= |p.exec|
    ensures forall x :: 0 <= x < |s.code| ==> s.code[x] == p.exec[p.offsets[k] + x]
  {
    hide DefinedInEof, InstrSize, Starts, WellFormed, JumpsOk, NodeAt, TypesOk, Flow, AllReachable, Consistent;
    hide IsMaximum;
    assert SectionLoaded(p, k, sections[k], heights[k]);
    s := Section(sections[k], k, p.types);
    TypedFacts(s, heights[k], pc - p.offsets[k]);
    i := pc - p.offsets[k];
    assert forall x :: 0 <= x < |s.code| ==> s.code[x] == p.exec[p.offsets[k]..p.offsets[k] + |s.code|][x];
  }

  /** A section is entered at its inputs. */
  lemma EntryPlaced(p: Program, sections: seq<Code>, heights: seq<map<int, int>>, k: nat)
    requires Loaded(p, sections, heights) && k < |sections|
    ensures Placed(p, heights, k, p.offsets[k], p.types[k].inputs as int)
    ensures 0 <= p.types[k].maxStackHeight <= MAX_STACK_HEIGHT
  {
    hide DefinedInEof, InstrSize, Starts, WellFormed, JumpsOk, NodeAt, AllReachable, IsMaximum;
    assert SectionLoaded(p, k, sections[k], heights[k]);
    assert p.types[k] in p.types;
  }

  lemma InitialTyped(p: Program, sections: seq<Code>, heights: seq<map<int, int>>)
    requires Loaded(p, sections, heights)
    ensures WellTyped(p, heights, INITIAL, [Frame(0, 0)])
  {
    hide SectionLoaded;
    EntryPlaced(p, sections, heights, 0);
  }

  // ----- One step -----

  /** The run-time target of a relative jump is one of the successors the validator followed. */
  lemma JumpIsSuccessor(p: Program, m: Machine, top: nat, s: Section, i: nat)
    requires i < |s.code| && i + InstrSize(s.code, i) <= |s.code| && IsJump(s.code[i])
    requires i <= m.pc && m.pc - i + |s.code| <= |p.exec|
    requires forall x :: 0 <= x < |s.code| ==> s.code[x] == p.exec[m.pc - i + x]
    requires InstrSize(s.code, i) >= 3
    ensures JumpTarget(p, m, top) - (m.pc - i) in NodeAt(s, i).next
  {
    hide GasCost, StackRequired, StackChange;
    var op, t := s.code[i], JumpTarget(p, m, top) - (m.pc - i);
    assert p.exec[m.pc] == s.code[i] && p.exec[m.pc + 1] == s.code[i + 1] && p.exec[m.pc + 2] == s.code[i + 2];
    var succ := Successors(s.code, i);
    if op == OP_RJUMP {
      assert succ[0] == Target(s.code, i, 0) == t;
    } else if op == OP_RJUMPI {
      assert succ[0] == i + 3 && succ[1] == Target(s.code, i, 0);
    } else if top < s.code[i + 1] as int {
      assert p.exec[m.pc + 2 + 2 * top] == s.code[i + 2 + 2 * top];
      assert p.exec[m.pc + 2 + 2 * top + 1] == s.code[i + 2 + 2 * top + 1];
      assert succ[1 + top] == Target(s.code, i, top) == t;
    } else {
      assert succ[0] == t;
    }
  }

  /** The graph node of an instruction that neither calls nor returns. */
  lemma OrdinaryNode(s: Section, i: nat)
    requires i < |s.code| && i + InstrSize(s.code, i) <= |s.code|
    requires s.code[i] != OP_CALLF && s.code[i] != OP_RETF
    ensures NodeAt(s, i).required == StackRequired(s.code[i]) && NodeAt(s, i).change == StackChange(s.code[i])
    ensures FallsThrough(s.code[i]) ==> i + InstrSize(s.code, i) in NodeAt(s, i).next
    ensures s.code[i] != OP_RJUMPV ==> InstrSize(s.code, i) == 1 + ImmediateSize(s.code[i])
    ensures StackChange(s.code[i]) > 0 ==> FallsThrough(s.code[i])
  {
    if FallsThrough(s.code[i]) {
      assert Successors(s.code, i)[0] == i + InstrSize(s.code, i);
    }
  }

  /** The requirement checks of the dispatch loop pass. */
  lemma ChecksPass(p: Program, sections: seq<Code>, heights: seq<map<int, int>>, m: Machine, f: Frame)
    requires Loaded(p, sections, heights) && Fits(p, f) && Placed(p, heights, f.section, m.pc, m.height - f.base)
    ensures 0 <= m.pc < |p.exec|
    ensures var op := p.exec[m.pc];
            DefinedInEof(op) && m.height >= StackRequired(op) && m.height + StackChange(op) <= STACK_LIMIT
  {
    hide Loaded, Checked, Instrs, JumpsOk, Placed, NodeAt, InstrSize, GasCost, StackRequired, StackChange, DefinedInEof;
    var k, h := f.section, m.height - f.base;
    var i, s := PlacedFacts(p, sections, heights, k, m.pc, h);
    assert p.exec[m.pc] == s.code[i];
    var op := s.code[i];
    if op == OP_CALLF || op == OP_RETF {
      CallTraits();
    } else {
      OrdinaryNode(s, i);
      if FallsThrough(op) {
        var next := i + InstrSize(s.code, i);
        var _, _ := PlacedFacts(p, sections, heights, k, p.offsets[k] + next, h + StackChange(op));
      }
    }
  }

  lemma CallTraits()
    ensures StackRequired(OP_CALLF) == StackChange(OP_CALLF) == StackRequired(OP_RETF) == StackChange(OP_RETF) == 0
    ensures StackChange(OP_DUPN) == 1 && StackChange(OP_SWAPN) == 0
  {
  }

  /** The instruction at `pc'` is a successor, in the graph of section `k`, of the one at `pc`. */
  ghost predicate Follows(p: Program, sections: seq<Code>, k: nat, pc: int, pc': int) {
    && k < |sections| && k < |p.offsets|
    && var s, i := Section(sections[k], k, p.types), pc - p.offsets[k];
       && 0 <= i < |s.code| && i + InstrSize(s.code, i) <= |s.code|
       && pc' - p.offsets[k] in NodeAt(s, i).next
  }

  /** Instructions that stay in their frame go to a successor at the height computed for it. */
  lemma LocalStep(p: Program, sections: seq<Code>, heights: seq<map<int, int>>, m: Machine, f: Frame, input: Input)
    requires Loaded(p, sections, heights) && Fits(p, f) && Placed(p, heights, f.section, m.pc, m.height - f.base)
    requires 0 <= m.pc < |p.exec| && p.exec[m.pc] != OP_CALLF && p.exec[m.pc] != OP_RETF
    ensures var r := Step(p, m, input);
            && r != Broken && r != CheckFailed && r != CallOverflow
            && (r.Next? ==> r.m.callStack == m.callStack && Placed(p, heights, f.section, r.m.pc, r.m.height - f.base)
                            && Follows(p, sections, f.section, m.pc, r.m.pc))
  {
    hide Loaded, Checked, Instrs, JumpsOk, Placed, NodeAt, GasCost, StackRequired, DefinedInEof, JumpTarget;
    ChecksPass(p, sections, heights, m, f);
    var i, s := PlacedFacts(p, sections, heights, f.section, m.pc, m.height - f.base);
    assert p.exec[m.pc] == s.code[i];
    OrdinaryNode(s, i);
    CallTraits();
    if IsJump(s.code[i]) {
      JumpIsSuccessor(p, m, input.top, s, i);
      assert JumpTarget(p, m, input.top) == p.offsets[f.section] + (JumpTarget(p, m, input.top) - (m.pc - i));
    } else {
      assert m.pc + InstrSize(s.code, i) == p.offsets[f.section] + (i + InstrSize(s.code, i));
    }
  }

  lemma CallFacts(s: Section, i: nat)
    requires Checked(s) && i in Instrs(s.code) && i + InstrSize(s.code, i) <= |s.code|
    requires s.code[i] == OP_CALLF && NodeAt(s, i).callOk
    ensures i + 3 <= |s.code| && U16(s.code, i + 1) < |s.types| && i + 3 in NodeAt(s, i).next
    ensures var callee, n := s.types[U16(s.code, i + 1)], NodeAt(s, i);
            n.required == callee.inputs && n.change == callee.outputs - callee.inputs
  {
    assert Successors(s.code, i)[0] == i + 3;
    CallNode(s, i);
  }

  /** `callee` is the frame of the section that the CALLF at `m.pc` names. */
  predicate CalledFrom(p: Program, m: Machine, callee: Frame) {
    && 0 <= m.pc && m.pc + 2 < |p.exec| && callee.section == U16(p.exec, m.pc + 1) < |p.types|
    && callee.base == m.height - p.types[callee.section].inputs as int
  }

  /** CALLF enters the callee at its inputs and leaves a return position at which its outputs are expected. */
  lemma CallStep(p: Program, sections: seq<Code>, heights: seq<map<int, int>>, m: Machine, frames: seq<Frame>)
    returns (callee: Frame)
    requires Loaded(p, sections, heights) && WellTyped(p, heights, m, frames)
    requires 0 <= m.pc < |p.exec| && p.exec[m.pc] == OP_CALLF
    ensures var r := CallOrReturn(p, m);
            && (r == CallOverflow || r.Next?)
            && (r.Next? ==> WellTyped(p, heights, r.m, frames + [callee]) && CalledFrom(p, m, callee))
  {
    hide SectionLoaded, Checked, NodeAt, InstrSize, DefinedInEof, Instrs, Placed;
    var top := frames[|frames| - 1];
    var i, s := PlacedFacts(p, sections, heights, top.section, m.pc, m.height - top.base);
    assert p.exec[m.pc] == s.code[i];
    CallFacts(s, i);
    assert p.exec[m.pc + 1] == s.code[i + 1] && p.exec[m.pc + 2] == s.code[i + 2];
    var index := U16(s.code, i + 1);
    assert Placed(p, heights, top.section, p.offsets[top.section] + (i + 3), m.height - top.base + NodeAt(s, i).change);
    assert p.offsets[top.section] + (i + 3) == m.pc + 3;
    callee := Frame(index, m.height - p.types[index].inputs as int);
    EntryPlaced(p, sections, heights, index);
    var r := CallOrReturn(p, m);
    if r.Next? {
      assert Linked(p, heights, top, m.pc + 3, callee);
      assert Fits(p, callee);
      CallTyped(p, heights, m, frames, r.m, callee);
    }
  }

  lemma CallTyped(p: Program, heights: seq<map<int, int>>, m: Machine, frames: seq<Frame>, m': Machine, callee: Frame)
    requires WellTyped(p, heights, m, frames) && |m.callStack| < STACK_LIMIT
    requires m' == Machine(m'.pc, m.height, m.callStack + [m.pc + 3])
    requires Fits(p, callee) && Linked(p, heights, frames[|frames| - 1], m.pc + 3, callee)
    requires Placed(p, heights, callee.section, m'.pc, m'.height - callee.base)
    ensures WellTyped(p, heights, m', frames + [callee])
  {
    hide Placed, Fits, Linked;
  }

  /** RETF finds a return position, and comes back to it at the height computed for it. */
  lemma ReturnStep(p: Program, sections: seq<Code>, heights: seq<map<int, int>>, m: Machine, frames: seq<Frame>)
    requires Loaded(p, sections, heights) && WellTyped(p, heights, m, frames)
    requires 0 <= m.pc < |p.exec| && p.exec[m.pc] == OP_RETF && |frames| > 1
    ensures var r := CallOrReturn(p, m);
            r.Next? && WellTyped(p, heights, r.m, frames[..|frames| - 1])
  {
    hide SectionLoaded, Checked, InstrSize, DefinedInEof, Instrs, Placed, Fits;
    var n := |frames|;
    var top := frames[n - 1];
    var i, s := PlacedFacts(p, sections, heights, top.section, m.pc, m.height - top.base);
    assert p.exec[m.pc] == s.code[i];
    CallTraits();
    assert Linked(p, heights, frames[n - 2], m.callStack[n - 2], top);
  }

  /** No instruction of the section is RETF. */
  ghost predicate NoReturn(code: Code) {
    forall i :: i in Instrs(code) ==> code[i] != OP_RETF
  }

  /** Outside any call a RETF is one of the first section. */
  lemma ReturnsAreCalled(p: Program, sections: seq<Code>, heights: seq<map<int, int>>, m: Machine, frames: seq<Frame>)
    requires Loaded(p, sections, heights) && WellTyped(p, heights, m, frames)
    requires 0 <= m.pc < |p.exec| && p.exec[m.pc] == OP_RETF
    ensures |frames| == 1 ==> !NoReturn(sections[0])
  {
    hide SectionLoaded, Checked, InstrSize, DefinedInEof, Instrs, Placed, NodeAt;
    var top := frames[|frames| - 1];
    var i, s := PlacedFacts(p, sections, heights, top.section, m.pc, m.height - top.base);
    assert p.exec[m.pc] == s.code[i];
  }

  /** One step keeps the typing invariant and passes the requirement checks; it breaks only at a RETF outside any
      call. */
  lemma StepPreserves(p: Program, sections: seq<Code>, heights: seq<map<int, int>>, m: Machine, frames: seq<Frame>,
                      input: Input)
    returns (frames': seq<Frame>)
    requires Loaded(p, sections, heights) && WellTyped(p, heights, m, frames)
    ensures var r := Step(p, m, input);
            && r != CheckFailed
            && (r == Broken ==> m.callStack == [] && 0 <= m.pc < |p.exec| && p.exec[m.pc] == OP_RETF)
            && (r.Next? ==> WellTyped(p, heights, r.m, frames'))
  {
    hide Loaded, Placed, Linked, JumpTarget, CallOrReturn, DupSwap;
    var top := frames[|frames| - 1];
    ChecksPass(p, sections, heights, m, top);
    frames' := frames;
    if p.exec[m.pc] == OP_CALLF {
      var callee := CallStep(p, sections, heights, m, frames);
      frames' := frames + [callee];
    } else if p.exec[m.pc] != OP_RETF {
      LocalStep(p, sections, heights, m, top, input);
    } else if |frames| > 1 {
      ReturnStep(p, sections, heights, m, frames);
      frames' := frames[..|frames| - 1];
    } else {
      EmptyReturn(p, m);
    }
  }

  lemma EmptyReturn(p: Program, m: Machine)
    requires 0 <= m.pc < |p.exec| && p.exec[m.pc] == OP_RETF && m.callStack == []
    ensures CallOrReturn(p, m) == Broken
  {
  }

  /** The same over whole runs: only a first section that returns can break. */
  lemma {:induction false} RunPreserves(p: Program, sections: seq<Code>, heights: seq<map<int, int>>, m: Machine,
                                        frames: seq<Frame>, inputs: seq<Input>) returns (frames': seq<Frame>)
    requires Loaded(p, sections, heights) && WellTyped(p, heights, m, frames)
    ensures var r := Run(p, m, inputs);
            && r != CheckFailed
            && (r == Broken ==> !NoReturn(sections[0]))
            && (r.Next? ==> WellTyped(p, heights, r.m, frames'))
    decreases |inputs|
  {
    hide Loaded, WellTyped, NoReturn, Step;
    frames' := frames;
    if inputs != [] {
      frames' := StepPreserves(p, sections, heights, m, frames, inputs[0]);
      var r := Step(p, m, inputs[0]);
      if r.Next? {
        frames' := RunPreserves(p, sections, heights, r.m, frames', inputs[1..]);
      } else if r == Broken {
        OneFrame(p, heights, m, frames);
        ReturnsAreCalled(p, sections, heights, m, frames);
      }
    }
  }

  lemma OneFrame(p: Program, heights: seq<map<int, int>>, m: Machine, frames: seq<Frame>)
    requires WellTyped(p, heights, m, frames) && m.callStack == []
    ensures |frames| == 1
  {
  }

  /** Between instructions the stack never holds more than its limit, nor less than the frame's base. */
  lemma HeightBounds(p: Program, sections: seq<Code>, heights: seq<map<int, int>>, m: Machine, frames: seq<Frame>)
    requires Loaded(p, sections, heights) && WellTyped(p, heights, m, frames)
    ensures 0 <= frames[|frames| - 1].base <= m.height <= STACK_LIMIT
  {
    hide SectionLoaded, Checked, InstrSize, DefinedInEof, Instrs, Placed, NodeAt;
    var top := frames[|frames| - 1];
    var _, _ := PlacedFacts(p, sections, heights, top.section, m.pc, m.height - top.base);
  }

  // ----- Containers -----

  /** `analyze_eof1`: the code sections as one buffer, offsets counted from its start. */
  function ProgramOf(c: Code, hd: Header): Program
    requires 0 < |hd.codeOffsets| == |hd.codeSizes|
    requires hd.codeOffsets[0] <= hd.codeOffsets[|hd.codeOffsets| - 1] + hd.codeSizes[|hd.codeSizes| - 1] <= |c|
  {
    var first, last := hd.codeOffsets[0], |hd.codeOffsets| - 1;
    Program(c[first..hd.codeOffsets[last] + hd.codeSizes[last]],
            seq(|hd.codeOffsets|, k requires 0 <= k < |hd.codeOffsets| => hd.codeOffsets[k] as int - first), hd.types)
  }

  ghost function HeightsOf(s: Section): (heights: map<int, int>)
    requires SectionValid(s)
    ensures Typed(s, heights)
  {
    var heights :| Typed(s, heights);
    heights
  }

  /** Offsets within the container stay offsets within the executable code. */
  lemma SectionsInProgram(c: Code, h: SectionHeaders)
    requires Layout(c, h)
    ensures var hd, n := HeaderOf(c, h), |h.codeSizes|;
            && hd.codeOffsets[0] <= hd.codeOffsets[n - 1] + hd.codeSizes[n - 1] <= |c|
            && forall k :: 0 <= k < n ==>
                 && hd.codeOffsets[0] <= hd.codeOffsets[k]
                 && hd.codeOffsets[k] + hd.codeSizes[k] <= hd.codeOffsets[n - 1] + hd.codeSizes[n - 1]
  {
    var hd, n := HeaderOf(c, h), |h.codeSizes|;
    SumTake(h.codeSizes, n - 1);
    assert h.codeSizes[..n - 1 + 1] == h.codeSizes;
    assert h.codeSizes[..0] == [];
    forall k | 0 <= k < n
      ensures hd.codeOffsets[0] <= hd.codeOffsets[k]
      ensures hd.codeOffsets[k] + hd.codeSizes[k] <= hd.codeOffsets[n - 1] + hd.codeSizes[n - 1]
    {
      SumTake(h.codeSizes, k);
    }
    SectionInside(c, h, n - 1);
  }

  /** The program the interpreter loads from a valid container. */
  ghost function LoadedProgram(c: Code, h: SectionHeaders): Program
    requires Layout(c, h)
  {
    SectionsInProgram(c, h);
    ProgramOf(c, HeaderOf(c, h))
  }

  lemma SliceOfSlice(c: Code, a: nat, b: nat, x: nat, y: nat)
    requires a <= b <= |c| && x <= y <= b - a
    ensures c[a..b][x..y] == c[a + x..a + y]
  {
    var s, t := c[a..b][x..y], c[a + x..a + y];
    assert forall k :: 0 <= k < y - x ==> s[k] == c[a..b][x + k] == c[a + x + k] == t[k];
  }

  /** A section of the container is a slice of the executable code. */
  lemma SectionSlice(c: Code, h: SectionHeaders, k: nat)
    requires Layout(c, h) && k < |h.codeSizes|
    ensures var p, code := LoadedProgram(c, h), Sections(c, h)[k];
            && |p.offsets| == |h.codeSizes| && p.types == HeaderOf(c, h).types
            && 0 <= p.offsets[k] <= p.offsets[k] + |code| <= |p.exec|
            && p.exec[p.offsets[k]..p.offsets[k] + |code|] == code
  {
    hide TypesAt, Encode, Sum, Offsets;
    var hd, n, p := HeaderOf(c, h), |h.codeSizes|, LoadedProgram(c, h);
    SectionsInProgram(c, h);
    SectionInside(c, h, k);
    assert Sections(c, h)[k] == GetCode(c, hd, k);
    SliceOfSlice(c, hd.codeOffsets[0], hd.codeOffsets[n - 1] + hd.codeSizes[n - 1], p.offsets[k],
                 p.offsets[k] + hd.codeSizes[k]);
  }

  lemma ProgramLoaded(c: Code, h: SectionHeaders) returns (heights: seq<map<int, int>>)
    requires ValidContainer(c, h)
    ensures Loaded(LoadedProgram(c, h), Sections(c, h), heights)
  {
    hide TypesOk, Typed, Layout, LoadedProgram, HeaderOf, FirstIsPlain;
    var n, p := |h.codeSizes|, LoadedProgram(c, h);
    RoomForCode(c, h);
    heights := seq(n, k requires 0 <= k < n => HeightsOf(SectionOf(c, h, k)));
    var sections := Sections(c, h);
    ProgramStarts(c, h);
    SectionSlice(c, h, 0);
    forall k | 0 <= k < n
      ensures SectionLoaded(p, k, sections[k], heights[k])
    {
      SectionSlice(c, h, k);
      assert SectionOf(c, h, k) == Section(sections[k], k, p.types);
    }
  }

  lemma ProgramStarts(c: Code, h: SectionHeaders)
    requires Layout(c, h)
    ensures var p := LoadedProgram(c, h); |p.offsets| > 0 && p.offsets[0] == 0 && |p.types| == |h.codeSizes|
  {
    hide Encode, Sum;
  }

  /** The reached state is at an instruction of its section, at the computed height above its frame, with every
      frame below it in the same condition, and within the limits of both stacks. */
  ghost predicate Sound(c: Code, h: SectionHeaders, m: Machine)
    requires Layout(c, h)
  {
    exists heights, frames ::
      && Loaded(LoadedProgram(c, h), Sections(c, h), heights)
      && WellTyped(LoadedProgram(c, h), heights, m, frames)
      && 0 <= m.height <= STACK_LIMIT && |m.callStack| <= STACK_LIMIT
  }

  /** Soundness of EOF validation over whole runs: whatever the operands, the gas and the host do, a valid
      container never fails the undefined-instruction, underflow or overflow checks, is always where the validator
      said it would be, and reads outside its code, its types or its call stack only if its first section returns. */
  lemma ValidatedRunsAreSound(c: Code, h: SectionHeaders, inputs: seq<Input>)
    requires ValidContainer(c, h)
    ensures var r := Run(LoadedProgram(c, h), INITIAL, inputs);
            && r != CheckFailed && (r.Next? ==> Sound(c, h, r.m))
            && (NoReturn(Sections(c, h)[0]) ==> r != Broken)
  {
    hide Layout, SectionOf, SectionValid, TypesOk, HeaderOf, FirstIsPlain, LoadedProgram, Sections, Loaded, NoReturn;
    hide Step;
    var p, sections := LoadedProgram(c, h), Sections(c, h);
    var heights := ProgramLoaded(c, h);
    InitialTyped(p, sections, heights);
    var frames := RunPreserves(p, sections, heights, INITIAL, [Frame(0, 0)], inputs);
    var r := Run(p, INITIAL, inputs);
    if r.Next? {
      HeightBounds(p, sections, heights, r.m, frames);
    }
  }

  /** `dispatch`, its inputs being what the rest of the machine contributes in turn. */
  method Dispatch(p: Program, inputs: seq<Input>) returns (o: Outcome)
    ensures o == Run(p, INITIAL, inputs)
  {
    hide Step;
    var position := INITIAL;
    for i := 0 to |inputs|
      invariant Run(p, INITIAL, inputs) == Run(p, position, inputs[i..])
    {
      assert inputs[i..][1..] == inputs[i + 1..];
      var next := Step(p, position, inputs[i]);
      if !next.Next? {
        return next;
      }
      position := next.m;
    }
    return Next(position);
  }
}
