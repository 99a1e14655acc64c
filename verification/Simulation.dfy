/** The advanced interpreter, run on the result of its analysis, agrees with the baseline interpreter. */
module Simulation {
  import opened Bytes
  import opened Opcodes
  import opened LegacyCode
  import opened LegacyBlocks
  import opened Interpreters
  import opened AdvancedAnalysis

  // ----- Facts about the tables -----

  lemma GasFacts(rev: Revision)
    requires rev <= SHANGHAI
    ensures GasCost(rev, OP_STOP) == 0 && GasCost(rev, OP_JUMPDEST) == 1
    ensures GasCost(rev, OP_JUMP) == 8 && GasCost(rev, OP_JUMPI) == 10
  {
  }

  lemma StopFacts()
    ensures StackRequired(OP_STOP) == StackChange(OP_STOP) == 0
    ensures StackRequired(OP_JUMPDEST) == StackChange(OP_JUMPDEST) == 0
  {
  }

  lemma JumpFacts()
    ensures StackRequired(OP_JUMP) == 1 && StackChange(OP_JUMP) == -1
    ensures StackRequired(OP_JUMPI) == 2 && StackChange(OP_JUMPI) == -2
  {
  }

  lemma ReadFacts()
    ensures StackChange(OP_PC) == StackChange(OP_GAS) == 1
  {
  }

  lemma PushGrows(op: byte)
    requires IsPush(op)
    ensures StackChange(op) == 1
  {
  }

  lemma TableFacts(rev: Revision)
    requires rev <= SHANGHAI
    ensures GasCost(rev, OP_STOP) == 0 && GasCost(rev, OP_JUMPDEST) == 1
    ensures GasCost(rev, OP_JUMP) == 8 && GasCost(rev, OP_JUMPI) == 10
    ensures StackRequired(OP_STOP) == StackChange(OP_STOP) == 0
    ensures StackRequired(OP_JUMPDEST) == StackChange(OP_JUMPDEST) == 0
    ensures StackRequired(OP_JUMP) == 1 && StackChange(OP_JUMP) == -1
    ensures StackRequired(OP_JUMPI) == 2 && StackChange(OP_JUMPI) == -2
    ensures StackChange(OP_PC) == StackChange(OP_GAS) == 1
    ensures forall op :: IsPush(op) ==> StackChange(op) == 1
  {
    hide GasCost, StackRequired, StackChange;
    GasFacts(rev);
    StopFacts();
    JumpFacts();
    ReadFacts();
    forall op: byte | IsPush(op)
      ensures StackChange(op) == 1
    {
      PushGrows(op);
    }
  }

  // ----- Baseline runs -----

  lemma DestsInside(code: Code)
    ensures forall d :: d in JumpDests(code, 0) ==> d < |code|
  {
  }

  /** A step keeps the machine within its stack and its padded code, and either spends gas or moves forward. */
  lemma BaseStepOk<W(!new)>(code: Code, rev: Revision, core: Core<W>, s: Base<W>)
    requires rev <= SHANGHAI && ValidCore(core) && BaseOk(code, s)
    ensures var r := BaseStep(code, rev, core, s);
            r.Continue? ==>
              && BaseOk(code, r.state) && r.state.gas <= s.gas
              && (r.state.gas < s.gas || r.state.pc > s.pc)
  {
    hide GasCost, StackRequired, StackChange, JumpDests, PaddedNumber;
    TableFacts(rev);
    DestsInside(code);
  }

  /** `dispatch` runs until it stops. */
  ghost function BaseRun<W(!new)>(code: Code, rev: Revision, core: Core<W>, s: Base<W>): Outcome<W>
    requires rev <= SHANGHAI && ValidCore(core) && BaseOk(code, s)
    decreases s.gas, |code| + PADDING - s.pc
  {
    BaseStepOk(code, rev, core, s);
    match BaseStep(code, rev, core, s)
    case Stop(outcome) => outcome
    case Continue(s') => BaseRun(code, rev, core, s')
  }

  /** An instruction inside a block moves on to the next one, its base cost paid and the stack changed as the traits
      say. */
  lemma BaseAdvance<W(!new)>(code: Code, rev: Revision, core: Core<W>, s: Base<W>)
    requires rev <= SHANGHAI && ValidCore(core) && BaseOk(code, s) && s.pc < |code| && !EndsBlock(code[s.pc])
    ensures var r, op := BaseStep(code, rev, core, s), code[s.pc];
            if r.Stop? then r.outcome == Failed else
              && Admitted(rev, op, |s.stack|, s.gas)
              && r.state.pc == NextPos(code, s.pc)
              && r.state.gas <= s.gas - GasCost(rev, op)
              && |r.state.stack| == |s.stack| + StackChange(op)
  {
    hide GasCost, StackRequired, StackChange, JumpDests, PaddedNumber, Padded;
    TableFacts(rev);
    PaddedInside(code, s.pc);
  }

  lemma PaddedInside(code: Code, p: nat)
    requires p < |code|
    ensures Padded(code, p) == code[p]
  {
  }

  /** The requirements of the rest of the block cannot all be met. */
  ghost predicate Doomed<W>(code: Code, rev: Revision, s: Base<W>) {
    var r := Rest(code, rev, s.pc);
    s.gas < r.gas || |s.stack| < r.req || |s.stack| + r.growth > STACK_LIMIT
  }

  /** A run that cannot meet the requirements of its block fails before the block ends. */
  lemma {:induction false} DoomedFails<W(!new)>(code: Code, rev: Revision, core: Core<W>, s: Base<W>)
    requires rev <= SHANGHAI && ValidCore(core) && BaseOk(code, s) && Doomed(code, rev, s)
    ensures BaseRun(code, rev, core, s) == Failed
    decreases s.gas, |code| + PADDING - s.pc
  {
    var op := code[s.pc];
    BaseStepOk(code, rev, core, s);
    hide GasCost, StackRequired, StackChange, BaseInvoke, ValidCore;
    var r := BaseStep(code, rev, core, s);
    assert Rest(code, rev, s.pc) == Then(rev, op, After(code, rev, s.pc));
    if EndsBlock(op) {
      assert After(code, rev, s.pc) == EMPTY;
      assert r == Stop(Failed);
    } else {
      BaseAdvance(code, rev, core, s);
      if r.Continue? {
        assert After(code, rev, s.pc) == Rest(code, rev, NextPos(code, s.pc));
        DoomedFails(code, rev, core, r.state);
      }
    }
  }

  // ----- The simulation relation -----

  /** A program with its analysis. */
  datatype Setup<!W> = Setup(code: Code, rev: Revision, core: Core<W>, a: Analysis, pos: seq<nat>, totals: seq<int>)

  /** The domain of the comparison: revisions up to Shanghai, code whose offsets fit an int. */
  ghost predicate Ready<W(!new)>(x: Setup<W>) {
    && x.rev <= SHANGHAI && |x.code| <= 0x8000_0000
    && ValidCore(x.core)
    && IsAnalysis(x.code, x.rev, x.a, x.pos, x.totals)
  }

  /** Clamping the block gas to 32 bits cannot matter: every block fits, or the gas left does not reach the clamp. */
  ghost predicate GasFits(code: Code, rev: Revision, gas: int) {
    gas < 0xFFFF_FFFF || forall p :: 0 <= p < |code| ==> Full(code, rev, p).gas <= 0xFFFF_FFFF
  }

  /** Where the baseline is about to run the instruction at `b.pc`, the advanced interpreter is at the instruction
      compiled from it, with the same stack and world, having paid for the rest of the block already. */
  ghost predicate Related<W>(x: Setup<W>, b: Base<W>, a: Adv<W>) {
    var n, r := |x.a.instrs|, Rest(x.code, x.rev, b.pc);
    && BaseOk(x.code, b) && GasFits(x.code, x.rev, b.gas)
    && a.stack == b.stack && a.world == b.world
    && 1 <= a.idx < n == |x.pos| == |x.totals|
    && x.pos[a.idx] == (if b.pc <= |x.code| then b.pc else |x.code|)
    && a.gas == b.gas - r.gas && a.gas >= 0
    && |b.stack| >= r.req && |b.stack| + r.growth <= STACK_LIMIT
    && (b.pc < |x.code| && x.code[b.pc] != OP_JUMPDEST ==> a.blockCost == x.totals[a.idx])
  }

  /** A block check that passes leaves the machines related; one that fails dooms the baseline. */
  lemma EnterBlock<W>(x: Setup<W>, b: Base<W>, a: Adv<W>, block: Block)
    requires BaseOk(x.code, b) && GasFits(x.code, x.rev, b.gas)
    requires block == Close(Rest(x.code, x.rev, b.pc))
    requires a.stack == b.stack && a.world == b.world && a.gas == b.gas
    requires 1 <= a.idx + 1 < |x.a.instrs| == |x.pos| == |x.totals|
    requires x.pos[a.idx + 1] == (if b.pc <= |x.code| then b.pc else |x.code|)
    requires b.pc < |x.code| && x.code[b.pc] != OP_JUMPDEST ==> x.totals[a.idx + 1] == Rest(x.code, x.rev, b.pc).gas
    ensures var r := BeginBlock(block, a);
            if r.Continue? then Related(x, b, r.state) else r == Stop(Failed) && Doomed(x.code, x.rev, b)
  {
    hide Full;
  }

  /** The advanced instruction at hand, and the one after it. */
  lemma CompiledAt<W(!new)>(x: Setup<W>, b: Base<W>, a: Adv<W>)
    requires Ready(x) && Related(x, b, a) && b.pc < |x.code|
    ensures a.idx + 1 < |x.a.instrs| == |x.pos| == |x.totals|
    ensures |x.a.jumpdestOffsets| == |x.a.jumpdestTargets|
    ensures Compiled(x.code, x.rev, x.a.instrs[a.idx], b.pc, x.totals[a.idx])
    ensures !EndsCode(x.code[b.pc]) ==>
              Follows(x.code, x.rev, b.pc, x.pos[a.idx + 1], x.totals[a.idx], x.totals[a.idx + 1])
  {
    hide Compiled, Follows, Rest, Full, ValidCore, EndsCode;
  }

  /** The next instruction of the same block. */
  lemma SameBlock<W(!new)>(x: Setup<W>, b: Base<W>, a: Adv<W>, b': Base<W>, a': Adv<W>)
    requires Ready(x) && Related(x, b, a) && BaseOk(x.code, b') && b'.gas <= b.gas
    requires b.pc < |x.code| && x.code[b.pc] != OP_JUMPDEST && !EndsBlock(x.code[b.pc]) && Defined(x.rev, x.code[b.pc])
    requires b'.pc == NextPos(x.code, b.pc) && |b'.stack| == |b.stack| + StackChange(x.code[b.pc])
    requires a' == Adv(a.idx + 1, b'.stack, b'.gas - After(x.code, x.rev, b.pc).gas, b'.world, a.blockCost)
    ensures a'.gas >= 0 ==> Related(x, b', a')
    ensures a'.gas < 0 ==> Doomed(x.code, x.rev, b')
  {
    hide GasCost, StackRequired, StackChange, Compiled, InstrsOk, DestsOk, ValidCore;
    CompiledAt(x, b, a);
    assert Rest(x.code, x.rev, b.pc) == Then(x.rev, x.code[b.pc], After(x.code, x.rev, b.pc));
    assert After(x.code, x.rev, b.pc) == Rest(x.code, x.rev, b'.pc);
  }

  /** What the two interpreters can do in one step from related states. */
  ghost predicate InStep<W>(x: Setup<W>, rb: Step<Base<W>, W>, ra: Step<Adv<W>, W>) {
    match (rb, ra)
    case (Stop(ob), Stop(oa)) => ob == oa
    case (Continue(b), Continue(a)) => Related(x, b, a)
    case (Continue(b), Stop(oa)) => oa == Failed && BaseOk(x.code, b) && Doomed(x.code, x.rev, b)
    case (Stop(_), Continue(_)) => false
  }

  lemma JumpdestBase<W>(code: Code, rev: Revision, core: Core<W>, b: Base<W>)
    requires rev <= SHANGHAI && BaseOk(code, b) && b.pc < |code| && code[b.pc] == OP_JUMPDEST
    ensures BaseStep(code, rev, core, b) ==
            if b.gas >= 1 then Continue(Base(b.pc + 1, b.stack, b.gas - 1, b.world)) else Stop(Failed)
  {
    TableFacts(rev);
    hide GasCost, StackRequired, StackChange;
  }

  /** At a JUMPDEST the advanced interpreter checks the block it begins. */
  lemma StepAtJumpdest<W(!new)>(x: Setup<W>, b: Base<W>, a: Adv<W>)
    requires Ready(x) && Related(x, b, a) && b.pc < |x.code| && x.code[b.pc] == OP_JUMPDEST
    ensures InStep(x, BaseStep(x.code, x.rev, x.core, b), AdvStep(x.core, x.a, a))
  {
    hide GasCost, StackRequired, StackChange, ValidCore, BaseStep, InstrsOk, DestsOk;
    TableFacts(x.rev);
    CompiledAt(x, b, a);
    JumpdestBase(x.code, x.rev, x.core, b);
    var ins, rest := x.a.instrs[a.idx], Rest(x.code, x.rev, b.pc + 1);
    assert Full(x.code, x.rev, b.pc) == Then(x.rev, OP_JUMPDEST, rest) == Block(1 + rest.gas, rest.req, rest.growth);
    assert AdvStep(x.core, x.a, a) == BeginBlock(ins.block, a);
  }

  /** Past the end of the code both run STOP. */
  lemma StepAtEnd<W(!new)>(x: Setup<W>, b: Base<W>, a: Adv<W>)
    requires Ready(x) && Related(x, b, a) && b.pc >= |x.code|
    ensures a.idx < |x.a.instrs| && |x.a.jumpdestOffsets| == |x.a.jumpdestTargets|
    ensures InStep(x, BaseStep(x.code, x.rev, x.core, b), AdvStep(x.core, x.a, a))
  {
    hide GasCost, StackRequired, StackChange, ValidCore, Compiled, Follows;
    TableFacts(x.rev);
    if a.idx < |x.a.instrs| - 1 {
      assert Compiled(x.code, x.rev, x.a.instrs[a.idx], x.pos[a.idx], x.totals[a.idx]);
      CompiledBound(x.code, x.rev, x.a.instrs[a.idx], x.pos[a.idx], x.totals[a.idx]);
    }
  }

  /** The requirement checks of the baseline pass where the block check has passed. */
  lemma AdmittedByBlock<W(!new)>(x: Setup<W>, b: Base<W>, a: Adv<W>)
    requires Related(x, b, a) && b.pc < |x.code| && x.code[b.pc] != OP_JUMPDEST
    ensures Defined(x.rev, x.code[b.pc]) ==> Admitted(x.rev, x.code[b.pc], |b.stack|, b.gas)
    ensures Rest(x.code, x.rev, b.pc) == Then(x.rev, x.code[b.pc], After(x.code, x.rev, b.pc))
    ensures Defined(x.rev, x.code[b.pc]) ==>
              b.gas - GasCost(x.rev, x.code[b.pc]) == a.gas + After(x.code, x.rev, b.pc).gas
  {
    hide GasCost, StackRequired, StackChange;
  }

  /** Undefined and halting instructions. */
  lemma StepHalt<W(!new)>(x: Setup<W>, b: Base<W>, a: Adv<W>)
    requires Ready(x) && Related(x, b, a) && b.pc < |x.code| && x.code[b.pc] != OP_JUMPDEST
    requires !Defined(x.rev, x.code[b.pc]) || Halts(x.code[b.pc])
    ensures a.idx < |x.a.instrs| && |x.a.jumpdestOffsets| == |x.a.jumpdestTargets|
    ensures InStep(x, BaseStep(x.code, x.rev, x.core, b), AdvStep(x.core, x.a, a))
  {
    hide GasCost, StackRequired, StackChange, ValidCore, InstrsOk, DestsOk;
    CompiledAt(x, b, a);
    AdmittedByBlock(x, b, a);
  }

  /** Jumps end their block, so nothing is paid in advance; both find the same destination or none. */
  lemma JumpsAgree<W(!new)>(x: Setup<W>, dst: Word, stack: seq<Word>, gas: int, world: W, a: Adv<W>)
    requires Ready(x) && GasFits(x.code, x.rev, gas) && gas >= 0 && |stack| <= STACK_LIMIT
    requires a.stack == stack && a.gas == gas && a.world == world
    ensures |x.a.jumpdestOffsets| == |x.a.jumpdestTargets|
    ensures InStep(x, BaseJump(x.code, dst, stack, gas, world), AdvJump(x.a, dst, a))
  {
    hide ValidCore, Compiled, Follows, JumpDests, FindJumpdest;
    assert dst in JumpDests(x.code, 0) ==> dst < |x.code|;
    FindJumpdestExact(x.code, x.a, x.pos, dst);
    if dst in JumpDests(x.code, 0) {
      DestIsJumpdest(x.code, 0, dst);
      assert Rest(x.code, x.rev, dst) == EMPTY;
    }
  }

  lemma StepJump<W(!new)>(x: Setup<W>, b: Base<W>, a: Adv<W>)
    requires Ready(x) && Related(x, b, a) && b.pc < |x.code| && x.code[b.pc] == OP_JUMP
    ensures a.idx < |x.a.instrs| && |x.a.jumpdestOffsets| == |x.a.jumpdestTargets|
    ensures InStep(x, BaseStep(x.code, x.rev, x.core, b), AdvStep(x.core, x.a, a))
  {
    hide GasCost, StackRequired, StackChange, ValidCore, InstrsOk, DestsOk, BaseJump, AdvJump;
    TableFacts(x.rev);
    CompiledAt(x, b, a);
    AdmittedByBlock(x, b, a);
    JumpsAgree(x, Top(b.stack, 0), Pop(b.stack, 1), a.gas, b.world, a.(stack := Pop(a.stack, 1)));
  }

  lemma StepJumpi<W(!new)>(x: Setup<W>, b: Base<W>, a: Adv<W>)
    requires Ready(x) && Related(x, b, a) && b.pc < |x.code| && x.code[b.pc] == OP_JUMPI
    ensures a.idx < |x.a.instrs| && |x.a.jumpdestOffsets| == |x.a.jumpdestTargets|
    ensures InStep(x, BaseStep(x.code, x.rev, x.core, b), AdvStep(x.core, x.a, a))
  {
    hide GasCost, StackRequired, StackChange, ValidCore, InstrsOk, DestsOk, BaseJump, AdvJump, BeginBlock;
    TableFacts(x.rev);
    CompiledAt(x, b, a);
    AdmittedByBlock(x, b, a);
    if Top(b.stack, 1) != 0 {
      JumpsAgree(x, Top(b.stack, 0), Pop(b.stack, 2), a.gas, b.world, a.(stack := Pop(a.stack, 2)));
    } else {
      EnterBlock(x, Base(b.pc + 1, Pop(b.stack, 2), a.gas, b.world), a.(stack := Pop(a.stack, 2)),
                 x.a.instrs[a.idx].block);
    }
  }

  /** Instructions inside a block. The gas that GAS, SSTORE and the CALL and CREATE families see is the baseline's. */
  lemma StepInside<W(!new)>(x: Setup<W>, b: Base<W>, a: Adv<W>)
    requires Ready(x) && Related(x, b, a) && b.pc < |x.code| && x.code[b.pc] != OP_JUMPDEST
    requires Defined(x.rev, x.code[b.pc]) && !Halts(x.code[b.pc]) && !EndsBlock(x.code[b.pc])
    ensures a.idx < |x.a.instrs| && |x.a.jumpdestOffsets| == |x.a.jumpdestTargets|
    ensures InStep(x, BaseStep(x.code, x.rev, x.core, b), AdvStep(x.core, x.a, a))
  {
    hide GasCost, StackRequired, StackChange, InstrsOk, DestsOk, Doomed, ValidCore, GasFits;
    TableFacts(x.rev);
    CompiledAt(x, b, a);
    AdmittedByBlock(x, b, a);
    BaseStepOk(x.code, x.rev, x.core, b);
    BaseAdvance(x.code, x.rev, x.core, b);
    var rb := BaseStep(x.code, x.rev, x.core, b);
    if rb.Continue? {
      var b' := rb.state;
      SameBlock(x, b, a, b', Adv(a.idx + 1, b'.stack, b'.gas - After(x.code, x.rev, b.pc).gas, b'.world, a.blockCost));
    }
  }

  /** From related states the interpreters stay in step. */
  lemma StepsAgree<W(!new)>(x: Setup<W>, b: Base<W>, a: Adv<W>)
    requires Ready(x) && Related(x, b, a)
    ensures a.idx < |x.a.instrs| && |x.a.jumpdestOffsets| == |x.a.jumpdestTargets|
    ensures InStep(x, BaseStep(x.code, x.rev, x.core, b), AdvStep(x.core, x.a, a))
  {
    hide InStep, ValidCore, IsAnalysis, Defined, BaseStep, AdvStep, Rest, GasFits;
    if b.pc >= |x.code| {
      StepAtEnd(x, b, a);
    } else if x.code[b.pc] == OP_JUMPDEST {
      CompiledAt(x, b, a);
      StepAtJumpdest(x, b, a);
    } else if !Defined(x.rev, x.code[b.pc]) || Halts(x.code[b.pc]) {
      StepHalt(x, b, a);
    } else if x.code[b.pc] == OP_JUMP {
      StepJump(x, b, a);
    } else if x.code[b.pc] == OP_JUMPI {
      StepJumpi(x, b, a);
    } else {
      StepInside(x, b, a);
    }
  }

  // ----- Advanced runs -----

  ghost predicate AdvOk<W>(x: Setup<W>, s: Adv<W>) {
    s.idx < |x.a.instrs| && s.gas >= 0
  }

  /** Falls along every run between two charges of gas. */
  ghost function Rank<W>(x: Setup<W>, idx: nat): nat
    requires idx < |x.a.instrs|
  {
    if idx == 0 then |x.a.instrs| + 2
    else if x.a.instrs[idx].fn == BEGINBLOCK then 0
    else 1 + |x.a.instrs| - idx
  }

  /** Jump targets are block starts, and running one costs gas. */
  lemma BlockStart<W(!new)>(x: Setup<W>, k: nat)
    requires Ready(x) && 1 <= k < |x.a.instrs| - 1
    ensures (x.a.instrs[k].fn == BEGINBLOCK) == (x.pos[k] < |x.code| && x.code[x.pos[k]] == OP_JUMPDEST)
    ensures x.a.instrs[k].fn == BEGINBLOCK ==> x.a.instrs[k].block.gas >= 1
  {
    hide GasCost, ValidCore, Follows, DestsOk;
    GasFacts(x.rev);
    assert Compiled(x.code, x.rev, x.a.instrs[k], x.pos[k], x.totals[k]);
  }

  lemma JumpLandsOnBlock<W(!new)>(x: Setup<W>, dst: Word, s: Adv<W>)
    requires Ready(x) && AdvOk(x, s)
    ensures |x.a.jumpdestOffsets| == |x.a.jumpdestTargets|
    ensures var r := AdvJump(x.a, dst, s);
            r.Continue? ==>
              && r.state == s.(idx := r.state.idx)
              && 1 <= r.state.idx < |x.a.instrs| && x.a.instrs[r.state.idx].fn == BEGINBLOCK
  {
    hide ValidCore, InstrsOk, JumpDests, FindJumpdest;
    FindJumpdestExact(x.code, x.a, x.pos, dst);
    if dst in JumpDests(x.code, 0) {
      DestIsJumpdest(x.code, 0, dst);
      BlockStart(x, FindJumpdest(x.a, dst));
    }
  }

  /** An advanced step spends gas, or moves towards the next block start. */
  lemma AdvStepOk<W(!new)>(x: Setup<W>, s: Adv<W>)
    requires Ready(x) && AdvOk(x, s)
    ensures |x.a.jumpdestOffsets| == |x.a.jumpdestTargets|
    ensures var r := AdvStep(x.core, x.a, s);
            r.Continue? ==>
              && AdvOk(x, r.state) && r.state.gas <= s.gas
              && (r.state.gas < s.gas || Rank(x, r.state.idx) < Rank(x, s.idx))
  {
    hide GasCost, StackRequired, StackChange, AdvJump, Compiled, Follows, Rest, Full, JumpDests;
    if 1 <= s.idx < |x.a.instrs| - 1 {
      BlockStart(x, s.idx);
    }
    JumpFacts();
    if |s.stack| >= 2 {
      JumpLandsOnBlock(x, Top(s.stack, 0), s.(stack := Pop(s.stack, 2)));
    }
    if |s.stack| >= 1 {
      JumpLandsOnBlock(x, Top(s.stack, 0), s.(stack := Pop(s.stack, 1)));
    }
  }

  /** The loop of `advanced::execute`. */
  ghost function AdvRun<W(!new)>(x: Setup<W>, s: Adv<W>): Outcome<W>
    requires Ready(x) && AdvOk(x, s)
    decreases s.gas, Rank(x, s.idx)
  {
    AdvStepOk(x, s);
    match AdvStep(x.core, x.a, s)
    case Stop(outcome) => outcome
    case Continue(s') => AdvRun(x, s')
  }

  // ----- The theorems -----

  lemma {:induction false} RunsAgree<W(!new)>(x: Setup<W>, b: Base<W>, a: Adv<W>)
    requires Ready(x) && Related(x, b, a)
    ensures AdvOk(x, a) && AdvRun(x, a) == BaseRun(x.code, x.rev, x.core, b)
    decreases b.gas, |x.code| + PADDING - b.pc
  {
    hide Related, BaseStep, AdvStep, ValidCore, IsAnalysis, Rest;
    RelatedOk(x, b, a);
    StepsAgree(x, b, a);
    BaseStepOk(x.code, x.rev, x.core, b);
    AdvStepOk(x, a);
    var rb, ra := BaseStep(x.code, x.rev, x.core, b), AdvStep(x.core, x.a, a);
    if rb.Continue? && ra.Continue? {
      RunsAgree(x, rb.state, ra.state);
    } else if rb.Continue? {
      DoomedFails(x.code, x.rev, x.core, rb.state);
    }
  }

  lemma RelatedOk<W>(x: Setup<W>, b: Base<W>, a: Adv<W>)
    requires Related(x, b, a)
    ensures BaseOk(x.code, b) && AdvOk(x, a)
  {
  }

  /** The initial block check relates the machines or dooms the baseline. */
  lemma FirstBlock<W(!new)>(x: Setup<W>, gas: nat, world: W)
    requires Ready(x) && GasFits(x.code, x.rev, gas)
    ensures 0 < |x.a.instrs| && |x.a.jumpdestOffsets| == |x.a.jumpdestTargets|
    ensures var r := AdvStep(x.core, x.a, Adv(0, [], gas, world, 0));
            var b := Base(0, [], gas, world);
            && BaseOk(x.code, b)
            && if r.Continue? then Related(x, b, r.state) else r == Stop(Failed) && Doomed(x.code, x.rev, b)
  {
    hide ValidCore, Compiled, Follows;
    EnterBlock(x, Base(0, [], gas, world), Adv(0, [], gas, world, 0), x.a.instrs[0].block);
  }

  /** For all legacy code, gas and core functions the advanced run ends as the baseline run does: in success or revert
      with the same gas, memory, storage and output, or in failure. */
  lemma AdvancedAgreesWithBaseline<W(!new)>(x: Setup<W>, gas: nat, world: W)
    requires Ready(x) && GasFits(x.code, x.rev, gas)
    ensures AdvOk(x, Adv(0, [], gas, world, 0)) && BaseOk(x.code, Base(0, [], gas, world))
    ensures AdvRun(x, Adv(0, [], gas, world, 0)) == BaseRun(x.code, x.rev, x.core, Base(0, [], gas, world))
  {
    hide Related, ValidCore, IsAnalysis, Rest, AdvStep, BaseStep, Doomed;
    FirstBlock(x, gas, world);
    var a, b := Adv(0, [], gas, world, 0), Base(0, [], gas, world);
    AdvStepOk(x, a);
    var r := AdvStep(x.core, x.a, a);
    if r.Continue? {
      RunsAgree(x, b, r.state);
    } else {
      DoomedFails(x.code, x.rev, x.core, b);
    }
  }

  /** The state after `n` steps. */
  ghost function BaseSteps<W>(x: Setup<W>, s: Base<W>, n: nat): Step<Base<W>, W>
    decreases n
  {
    if n == 0 then Continue(s) else
      match BaseStep(x.code, x.rev, x.core, s)
      case Stop(outcome) => Stop(outcome)
      case Continue(s') => BaseSteps(x, s', n - 1)
  }

  ghost function AdvSteps<W(!new)>(x: Setup<W>, s: Adv<W>, n: nat): Step<Adv<W>, W>
    requires Ready(x) && AdvOk(x, s)
    decreases n
  {
    if n == 0 then Continue(s) else
      AdvStepOk(x, s);
      match AdvStep(x.core, x.a, s)
      case Stop(outcome) => Stop(outcome)
      case Continue(s') => AdvSteps(x, s', n - 1)
  }

  lemma {:induction false} LockStep<W(!new)>(x: Setup<W>, b: Base<W>, a: Adv<W>, n: nat)
    requires Ready(x) && Related(x, b, a)
    ensures AdvOk(x, a)
    ensures var ra, rb := AdvSteps(x, a, n), BaseSteps(x, b, n);
            ra.Continue? ==> rb.Continue? && Related(x, rb.state, ra.state)
    decreases n
  {
    hide Related, BaseStep, AdvStep, ValidCore, IsAnalysis, Rest;
    RelatedOk(x, b, a);
    StepsAgree(x, b, a);
    AdvStepOk(x, a);
    var rb, ra := BaseStep(x.code, x.rev, x.core, b), AdvStep(x.core, x.a, a);
    if n > 0 && rb.Continue? && ra.Continue? {
      LockStep(x, rb.state, ra.state, n - 1);
    }
  }

  /** After the first block check the interpreters are in step for good. */
  lemma StayRelated<W(!new)>(x: Setup<W>, gas: nat, world: W, n: nat)
    requires Ready(x) && GasFits(x.code, x.rev, gas) && AdvOk(x, Adv(0, [], gas, world, 0))
    ensures var ra := AdvSteps(x, Adv(0, [], gas, world, 0), n + 1);
            var rb := BaseSteps(x, Base(0, [], gas, world), n);
            ra.Continue? ==> rb.Continue? && Related(x, rb.state, ra.state)
  {
    hide ValidCore, Rest, AdvStep, BaseStep, Doomed, IsAnalysis, Related, GasFits;
    FirstBlock(x, gas, world);
    var a0 := Adv(0, [], gas, world, 0);
    AdvStepOk(x, a0);
    var r := AdvStep(x.core, x.a, a0);
    if r.Continue? {
      LockStep(x, Base(0, [], gas, world), r.state, n);
    }
  }

  /** At every instruction of a run that sees gas, what the advanced interpreter shows it, although the whole block was
      charged in advance, is what the baseline has left after charging that instruction. */
  lemma GasSeenIsBaselineGas<W(!new)>(x: Setup<W>, gas: nat, world: W, n: nat)
    requires Ready(x) && GasFits(x.code, x.rev, gas) && AdvOk(x, Adv(0, [], gas, world, 0))
    ensures var ra := AdvSteps(x, Adv(0, [], gas, world, 0), n + 1);
            var rb := BaseSteps(x, Base(0, [], gas, world), n);
            ra.Continue? ==>
              && rb.Continue? && ra.state.stack == rb.state.stack && ra.state.world == rb.state.world
              && ra.state.idx < |x.a.instrs|
              && var ins := x.a.instrs[ra.state.idx];
                 ins.fn.Fn? && (ins.fn.op == OP_GAS || SeesGas(ins.fn.op)) ==>
                   && Padded(x.code, rb.state.pc) == ins.fn.op
                   && ra.state.gas + (ra.state.blockCost - ins.number) == rb.state.gas - GasCost(x.rev, ins.fn.op) >= 0
  {
    hide ValidCore, Rest, AdvSteps, BaseSteps, GasCost, StackRequired, StackChange, InstrsOk, DestsOk;
    StayRelated(x, gas, world, n);
    var ra, rb := AdvSteps(x, Adv(0, [], gas, world, 0), n + 1), BaseSteps(x, Base(0, [], gas, world), n);
    if ra.Continue? {
      if rb.state.pc < |x.code| {
        CompiledAt(x, rb.state, ra.state);
        if x.code[rb.state.pc] != OP_JUMPDEST {
          AdmittedByBlock(x, rb.state, ra.state);
        }
      } else {
        LastInstruction(x, rb.state, ra.state);
      }
    }
  }

  /** The instruction the advanced interpreter is about to call finds its operands on the stack, and room for its
      results. */
  ghost predicate OnStack<W>(x: Setup<W>, a: Adv<W>) {
    && a.idx < |x.a.instrs| && |a.stack| <= STACK_LIMIT
    && var fn := x.a.instrs[a.idx].fn;
       fn.Fn? && fn != BEGINBLOCK ==>
         |a.stack| >= StackRequired(fn.op) && |a.stack| + StackChange(fn.op) <= STACK_LIMIT
  }

  /** Although it checks no stack bounds of its own, the advanced interpreter never reads below its stack nor writes
      above it, after any number of steps. */
  lemma StaysOnStack<W(!new)>(x: Setup<W>, gas: nat, world: W, n: nat)
    requires Ready(x) && GasFits(x.code, x.rev, gas) && AdvOk(x, Adv(0, [], gas, world, 0))
    ensures var ra := AdvSteps(x, Adv(0, [], gas, world, 0), n); ra.Continue? ==> OnStack(x, ra.state)
  {
    hide ValidCore, Rest, AdvSteps, BaseSteps, GasCost, StackRequired, StackChange, InstrsOk, DestsOk;
    if n == 0 {
      StartsWithCheck(x, gas, world);
    } else {
      StayRelated(x, gas, world, n - 1);
      var ra, rb := AdvSteps(x, Adv(0, [], gas, world, 0), n), BaseSteps(x, Base(0, [], gas, world), n - 1);
      if ra.Continue? {
        RelatedOnStack(x, rb.state, ra.state);
      }
    }
  }

  lemma StartsWithCheck<W(!new)>(x: Setup<W>, gas: nat, world: W)
    requires Ready(x) && AdvOk(x, Adv(0, [], gas, world, 0))
    ensures AdvSteps(x, Adv(0, [], gas, world, 0), 0) == Continue(Adv(0, [], gas, world, 0))
    ensures 0 < |x.a.instrs| && x.a.instrs[0].fn == BEGINBLOCK
  {
    hide ValidCore, Compiled, Follows, Rest;
  }

  lemma RelatedOnStack<W(!new)>(x: Setup<W>, b: Base<W>, a: Adv<W>)
    requires Ready(x) && Related(x, b, a)
    ensures OnStack(x, a)
  {
    hide ValidCore, Rest, GasCost, StackRequired, StackChange, InstrsOk, DestsOk;
    TableFacts(x.rev);
    if b.pc >= |x.code| {
      LastInstruction(x, b, a);
    } else {
      CompiledAt(x, b, a);
      if x.code[b.pc] != OP_JUMPDEST {
        AdmittedByBlock(x, b, a);
      }
    }
  }

  lemma LastInstruction<W(!new)>(x: Setup<W>, b: Base<W>, a: Adv<W>)
    requires Ready(x) && Related(x, b, a) && b.pc >= |x.code|
    ensures x.a.instrs[a.idx].fn == Fn(OP_STOP)
  {
    hide ValidCore, Compiled, Follows, DestsOk, Rest;
    if a.idx < |x.a.instrs| - 1 {
      assert Compiled(x.code, x.rev, x.a.instrs[a.idx], x.pos[a.idx], x.totals[a.idx]);
      CompiledBound(x.code, x.rev, x.a.instrs[a.idx], x.pos[a.idx], x.totals[a.idx]);
    }
  }

  /** `advanced::execute`: analysis followed by the instruction loop computes what the baseline interpreter does. */
  method Execute<W(!new)>(code: Code, rev: Revision, core: Core<W>, gas: nat, world: W) returns (outcome: Outcome<W>)
    requires rev <= SHANGHAI && |code| <= 0x8000_0000 && StackFits(code, rev)
    requires ValidCore(core) && GasFits(code, rev, gas)
    ensures BaseOk(code, Base(0, [], gas, world))
    ensures outcome == BaseRun(code, rev, core, Base(0, [], gas, world))
  {
    var a, pos, totals := Analyze(code, rev);
    ghost var x := Setup(code, rev, core, a, pos, totals);
    assert Ready(x);
    hide ValidCore, IsAnalysis, GasFits, AdvStep, BaseRun;
    var state := Adv(0, [], gas, world, 0);
    ghost var start := state;
    AdvancedAgreesWithBaseline(x, gas, world);
    while true
      invariant Ready(x) && AdvOk(x, start) && AdvOk(x, state)
      invariant AdvRun(x, state) == AdvRun(x, start)
      decreases state.gas, Rank(x, state.idx)
    {
      AdvStepOk(x, state);
      var r := AdvStep(core, a, state);
      if r.Stop? {
        return r.outcome;
      }
      state := r.state;
    }
  }
}
