/** The two interpreters of legacy code: baseline (baseline.cpp) checks every instruction, advanced
    (advanced_instructions.cpp, advanced_execution.cpp) checks every basic block. Both call the same core
    instruction functions, which are parameters here. */
module Interpreters {
  import opened Bytes
  import opened Opcodes
  import opened LegacyCode
  import opened LegacyBlocks

  type Word = nat

  /** What a core function does when it only subtracts a cost from the gas it is given: whether it succeeds when the
      cost can be paid, the cost, and the resulting stack and world (memory, storage, host, output). */
  datatype Effect<W> = Effect(ok: bool, cost: nat, stack: seq<Word>, world: W)

  /** What a core function does that inspects the gas it is given. */
  datatype GasEffect<W> = GasEffect(ok: bool, gas: int, stack: seq<Word>, world: W)

  /** The core instruction functions. */
  datatype Core<!W> = Core(run: (byte, seq<Word>, W) -> Effect<W>,
                           runWithGas: (byte, seq<Word>, int, W) -> GasEffect<W>)

  /** SSTORE and the CALL and CREATE families. */
  predicate SeesGas(op: byte) {
    op == OP_SSTORE || op == OP_CREATE || op == OP_CALL || op == OP_CALLCODE || op == OP_DELEGATECALL
    || op == OP_CREATE2 || op == OP_STATICCALL
  }

  /** The core functions change the stack as the traits say and never create gas. */
  ghost predicate ValidCore<W(!new)>(core: Core<W>) {
    && (forall op, stack, world :: |stack| >= StackRequired(op) ==>
          |core.run(op, stack, world).stack| == |stack| + StackChange(op))
    && (forall op, stack, gas, world :: |stack| >= StackRequired(op) ==>
          var e := core.runWithGas(op, stack, gas, world);
          |e.stack| == |stack| + StackChange(op) && (e.ok ==> 0 <= e.gas <= gas))
  }

  datatype Status = Success | Revert

  /** How execution ends. Failures keep no gas and no output, so they are not told apart. */
  datatype Outcome<W> = Done(status: Status, gas: int, world: W) | Failed

  datatype Step<S, W> = Continue(state: S) | Stop(outcome: Outcome<W>)

  /** STOP, INVALID, RETURN, REVERT and SELFDESTRUCT, run with `gas` left. */
  function Halt<W>(core: Core<W>, op: byte, stack: seq<Word>, gas: int, world: W): Outcome<W> {
    if op == OP_STOP then Done(Success, gas, world)
    else if op == OP_INVALID then Failed
    else
      var e := core.run(op, stack, world);
      if !e.ok || gas < e.cost then Failed
      else Done(if op == OP_REVERT then Revert else Success, gas - e.cost, e.world)
  }

  predicate Halts(op: byte) {
    op == OP_STOP || op == OP_INVALID || op == OP_RETURN || op == OP_REVERT || op == OP_SELFDESTRUCT
  }

  /** Top of the stack, and the stack without its top items. */
  function Top(stack: seq<Word>, i: nat): Word
    requires i < |stack|
  {
    stack[|stack| - 1 - i]
  }

  function Pop(stack: seq<Word>, n: nat): seq<Word>
    requires n <= |stack|
  {
    stack[..|stack| - n]
  }

  // ----- Baseline -----

  const PADDING := 33

  datatype Base<W> = Base(pc: nat, stack: seq<Word>, gas: int, world: W)

  ghost predicate BaseOk<W>(code: Code, s: Base<W>) {
    s.pc < |code| + PADDING && s.gas >= 0 && |s.stack| <= STACK_LIMIT
  }

  /** `check_requirements`. */
  predicate Admitted(rev: Revision, op: byte, height: nat, gas: int) {
    && Defined(rev, op)
    && !(StackChange(op) > 0 && height == STACK_LIMIT)
    && height >= StackRequired(op)
    && gas >= GasCost(rev, op)
  }

  /** `jump_impl`. */
  ghost function BaseJump<W>(code: Code, dst: Word, stack: seq<Word>, gas: int, world: W): Step<Base<W>, W> {
    if dst in JumpDests(code, 0) then Continue(Base(dst, stack, gas, world)) else Stop(Failed)
  }

  /** The core call of an admitted instruction, its base cost already charged. */
  ghost function BaseInvoke<W>(code: Code, core: Core<W>, op: byte, s: Base<W>): Step<Base<W>, W>
    requires |s.stack| >= StackRequired(op)
  {
    if Halts(op) then Stop(Halt(core, op, s.stack, s.gas, s.world))
    else if op == OP_JUMP then BaseJump(code, Top(s.stack, 0), Pop(s.stack, 1), s.gas, s.world)
    else if op == OP_JUMPI then
      if Top(s.stack, 1) != 0 then BaseJump(code, Top(s.stack, 0), Pop(s.stack, 2), s.gas, s.world)
      else Continue(Base(s.pc + 1, Pop(s.stack, 2), s.gas, s.world))
    else if op == OP_JUMPDEST then Continue(s.(pc := s.pc + 1))
    else if op == OP_PC then Continue(Base(s.pc + 1, s.stack + [s.pc], s.gas, s.world))
    else if op == OP_GAS then Continue(Base(s.pc + 1, s.stack + [if s.gas >= 0 then s.gas else 0], s.gas, s.world))
    else if IsPush(op) then
      Continue(Base(s.pc + 1 + PushSize(op), s.stack + [PaddedNumber(code, s.pc + 1, PushSize(op))], s.gas, s.world))
    else if SeesGas(op) then
      var e := core.runWithGas(op, s.stack, s.gas, s.world);
      if e.ok then Continue(Base(s.pc + 1, e.stack, e.gas, e.world)) else Stop(Failed)
    else
      var e := core.run(op, s.stack, s.world);
      if e.ok && s.gas >= e.cost then Continue(Base(s.pc + 1, e.stack, s.gas - e.cost, e.world)) else Stop(Failed)
  }

  /** One turn of `dispatch`. */
  ghost function BaseStep<W>(code: Code, rev: Revision, core: Core<W>, s: Base<W>): Step<Base<W>, W> {
    var op := Padded(code, s.pc);
    if !Admitted(rev, op, |s.stack|, s.gas) then Stop(Failed)
    else BaseInvoke(code, core, op, s.(gas := s.gas - GasCost(rev, op)))
  }

  // ----- Advanced -----

  datatype Fn = Undefined | Fn(op: byte)

  /** An instruction of the advanced program. The three argument fields share storage in the original; every
      instruction uses at most one of them. */
  datatype Instruction = Instruction(fn: Fn, block: Block, number: int, value: Word)

  /** `AdvancedCodeAnalysis`. */
  datatype Analysis = Analysis(instrs: seq<Instruction>, jumpdestOffsets: seq<nat>, jumpdestTargets: seq<nat>)

  /** `OPX_BEGINBLOCK` is the opcode JUMPDEST. */
  const BEGINBLOCK := Fn(OP_JUMPDEST)

  datatype Adv<W> = Adv(idx: nat, stack: seq<Word>, gas: int, world: W, blockCost: int)

  /** `std::lower_bound`: the first index whose element is not below `x`. */
  function LowerBound(s: seq<nat>, x: nat): (i: nat)
    ensures i <= |s|
    ensures i < |s| ==> s[i] >= x
    ensures forall k :: 0 <= k < i ==> s[k] < x
  {
    if s == [] || s[0] >= x then 0 else
      var i := LowerBound(s[1..], x);
      assert forall k :: 1 <= k < i + 1 ==> s[k] == s[1..][k - 1];
      i + 1
  }

  /** `find_jumpdest`. */
  function FindJumpdest(a: Analysis, offset: nat): (r: int)
    requires |a.jumpdestOffsets| == |a.jumpdestTargets|
    ensures r == -1 || exists i ::
              0 <= i < |a.jumpdestOffsets| && a.jumpdestOffsets[i] == offset && a.jumpdestTargets[i] == r
  {
    var i := LowerBound(a.jumpdestOffsets, offset);
    if i < |a.jumpdestOffsets| && a.jumpdestOffsets[i] == offset then a.jumpdestTargets[i] else -1
  }

  const MAX_INT := 0x7FFF_FFFF

  /** `op_jump`, after the operands have been popped. */
  function AdvJump<W>(a: Analysis, dst: Word, s: Adv<W>): Step<Adv<W>, W>
    requires |a.jumpdestOffsets| == |a.jumpdestTargets|
  {
    if dst > MAX_INT || FindJumpdest(a, dst) < 0 then Stop(Failed)
    else Continue(s.(idx := FindJumpdest(a, dst)))
  }

  /** `opx_beginblock`. */
  function BeginBlock<W>(block: Block, s: Adv<W>): Step<Adv<W>, W> {
    if s.gas < block.gas then Stop(Failed)
    else if |s.stack| < block.req then Stop(Failed)
    else if |s.stack| + block.growth > STACK_LIMIT then Stop(Failed)
    else Continue(Adv(s.idx + 1, s.stack, s.gas - block.gas, s.world, block.gas))
  }

  /** One call `instr->fn(instr, state)`. Like the original it checks no stack bounds of its own; where the original
      would read below the stack, the model fails. */
  function AdvStep<W>(core: Core<W>, a: Analysis, s: Adv<W>): Step<Adv<W>, W>
    requires s.idx < |a.instrs| && |a.jumpdestOffsets| == |a.jumpdestTargets|
  {
    var instr := a.instrs[s.idx];
    if instr.fn == Undefined then Stop(Failed)
    else if instr.fn == BEGINBLOCK then BeginBlock(instr.block, s)
    else
      var op := instr.fn.op;
      if |s.stack| < StackRequired(op) then Stop(Failed)
      else if Halts(op) then Stop(Halt(core, op, s.stack, s.gas, s.world))
      else if op == OP_JUMP then AdvJump(a, Top(s.stack, 0), s.(stack := Pop(s.stack, 1)))
      else if op == OP_JUMPI then
        if Top(s.stack, 1) != 0 then AdvJump(a, Top(s.stack, 0), s.(stack := Pop(s.stack, 2)))
        else BeginBlock(instr.block, s.(stack := Pop(s.stack, 2)))
      else if op == OP_PC then
        Continue(s.(idx := s.idx + 1, stack := s.stack + [if instr.number >= 0 then instr.number else 0]))
      else if op == OP_GAS then
        var gas := s.gas + (s.blockCost - instr.number);
        Continue(s.(idx := s.idx + 1, stack := s.stack + [if gas >= 0 then gas else 0]))
      else if IsPush(op) then Continue(s.(idx := s.idx + 1, stack := s.stack + [instr.value]))
      else if SeesGas(op) then
        var correction := s.blockCost - instr.number;
        var e := core.runWithGas(op, s.stack, s.gas + correction, s.world);
        if e.ok && e.gas >= correction
        then Continue(s.(idx := s.idx + 1, stack := e.stack, gas := e.gas - correction, world := e.world))
        else Stop(Failed)
      else
        var e := core.run(op, s.stack, s.world);
        if e.ok && s.gas >= e.cost
        then Continue(s.(idx := s.idx + 1, stack := e.stack, gas := s.gas - e.cost, world := e.world))
        else Stop(Failed)
  }
}
