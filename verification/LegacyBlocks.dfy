/** Basic blocks of legacy code: the base gas and stack bounds that advanced_analysis.cpp sums up front, defined here
    by recursion over the code. */
module LegacyBlocks {
  import opened Bytes
  import opened Opcodes
  import opened LegacyCode

  /** The requirements of a run of instructions: total base gas, stack height needed at its start, and the largest
      growth over that height. */
  datatype Block = Block(gas: nat, req: nat, growth: nat)

  const EMPTY := Block(0, 0, 0)

  function Max(a: int, b: int): int { if a >= b then a else b }

  predicate Defined(rev: Revision, op: byte) { GasCost(rev, op) != UNDEFINED }

  // `OpTable` entries; those of undefined instructions are zero.

  function TableGas(rev: Revision, op: byte): nat { if Defined(rev, op) then GasCost(rev, op) else 0 }

  function TableReq(rev: Revision, op: byte): nat { if Defined(rev, op) then StackRequired(op) else 0 }

  function TableChange(rev: Revision, op: byte): (d: int)
    ensures TableReq(rev, op) + d >= 0
  {
    if Defined(rev, op) then StackChange(op) else 0
  }

  /** Instructions after which the analysis skips to the next JUMPDEST. */
  predicate EndsCode(op: byte) {
    op == OP_JUMP || op == OP_STOP || op == OP_RETURN || op == OP_REVERT || op == OP_SELFDESTRUCT
  }

  /** The last instruction of a basic block. */
  predicate EndsBlock(op: byte) {
    EndsCode(op) || op == OP_JUMPI
  }

  /** The requirements of `op` followed by a run that requires `rest`. */
  function Then(rev: Revision, op: byte, rest: Block): Block {
    Block(TableGas(rev, op) + rest.gas,
          Max(TableReq(rev, op), rest.req - TableChange(rev, op)),
          Max(0, TableChange(rev, op) + rest.growth))
  }

  /** The requirements of what is left of the current block at `p`. */
  function Rest(code: Code, rev: Revision, p: nat): Block
    decreases |code| - p, 2
  {
    if p >= |code| || code[p] == OP_JUMPDEST then EMPTY else Full(code, rev, p)
  }

  /** The requirements of the instruction at `p` and what follows it in its block. */
  function Full(code: Code, rev: Revision, p: nat): Block
    requires p < |code|
    decreases |code| - p, 1
  {
    Then(rev, code[p], After(code, rev, p))
  }

  /** The requirements of what follows the instruction at `p` in its block. */
  function After(code: Code, rev: Revision, p: nat): Block
    requires p < |code|
    decreases |code| - p, 0
  {
    if EndsBlock(code[p]) then EMPTY else Rest(code, rev, NextPos(code, p))
  }

  // ----- BlockInfo -----

  const MAX_UINT32 := 0xFFFF_FFFF
  const MAX_INT16 := 0x7FFF

  /** `BlockAnalysis::close`: each number clamped to the width of its field. */
  function Close(b: Block): Block {
    Block(Clamp(b.gas, MAX_UINT32), Clamp(b.req, MAX_INT16), Clamp(b.growth, MAX_INT16))
  }

  function Clamp(x: nat, max: nat): nat { if x <= max then x else max }

  /** Closing changes nothing exactly when the gas fits 32 bits and the stack bounds 15; what does not fit becomes the
      largest number that does. */
  lemma CloseIs(b: Block)
    ensures Close(b) == b <==> b.gas < 0x1_0000_0000 && b.req < 0x8000 && b.growth < 0x8000
    ensures b.gas >= 0x1_0000_0000 ==> Close(b).gas == 0xFFFF_FFFF
    ensures b.req >= 0x8000 ==> Close(b).req == 0x7FFF
    ensures b.growth >= 0x8000 ==> Close(b).growth == 0x7FFF
  {
  }

  /** The stack half of `opx_beginblock`'s checks. */
  predicate StackAdmits(info: Block, height: int) {
    height >= info.req && height + info.growth <= STACK_LIMIT
  }

  /** Clamping does not change the verdict for any height a stack can have. */
  lemma ClampingIsHarmless(b: Block, height: int)
    requires 0 <= height <= STACK_LIMIT
    ensures StackAdmits(Close(b), height) <==> StackAdmits(b, height)
  {
  }

  /** The baseline's own checks pass for each instruction of the block from `p` on. */
  ghost predicate EachCheckPasses(code: Code, rev: Revision, p: nat, height: int)
    requires p < |code|
    decreases |code| - p
  {
    var op := code[p];
    && height >= StackRequired(op)
    && !(StackChange(op) > 0 && height == STACK_LIMIT)
    && (EndsBlock(op) || NextPos(code, p) >= |code| || code[NextPos(code, p)] == OP_JUMPDEST
        || EachCheckPasses(code, rev, NextPos(code, p), height + StackChange(op)))
  }

  /** Every instruction of the block from `p` on is defined. */
  ghost predicate AllDefined(code: Code, rev: Revision, p: nat)
    requires p < |code|
    decreases |code| - p
  {
    && Defined(rev, code[p])
    && (EndsBlock(code[p]) || NextPos(code, p) >= |code| || code[NextPos(code, p)] == OP_JUMPDEST
        || AllDefined(code, rev, NextPos(code, p)))
  }

  /** One check at block entry is equivalent to the checks of all its instructions. */
  lemma {:induction false} OneCheckIsAll(code: Code, rev: Revision, p: nat, height: int)
    requires p < |code| && AllDefined(code, rev, p) && 0 <= height <= STACK_LIMIT
    ensures StackAdmits(Full(code, rev, p), height) <==> EachCheckPasses(code, rev, p, height)
    ensures StackAdmits(Close(Full(code, rev, p)), height) <==> EachCheckPasses(code, rev, p, height)
    decreases |code| - p
  {
    hide GasCost, StackRequired, StackProduced;
    var op, q := code[p], NextPos(code, p);
    ClampingIsHarmless(Full(code, rev, p), height);
    assert Full(code, rev, p) == Then(rev, op, After(code, rev, p));
    assert !EndsBlock(op) ==> After(code, rev, p) == Rest(code, rev, q);
    if !EndsBlock(op) && q < |code| && code[q] != OP_JUMPDEST
       && height >= StackRequired(op) && height + StackChange(op) <= STACK_LIMIT {
      OneCheckIsAll(code, rev, q, height + StackChange(op));
    }
  }
}
