/** Opcodes, instruction traits and base gas costs (instructions_opcodes.hpp,
    instructions_traits.hpp, baseline_instruction_table.cpp). */
module Opcodes {
  import opened Bytes

  const OP_STOP: byte := 0x00
  const OP_ADD: byte := 0x01
  const OP_SIGNEXTEND: byte := 0x0b
  const OP_SSTORE: byte := 0x55
  const OP_JUMP: byte := 0x56
  const OP_JUMPI: byte := 0x57
  const OP_PC: byte := 0x58
  const OP_GAS: byte := 0x5a
  const OP_JUMPDEST: byte := 0x5b
  const OP_RJUMP: byte := 0x5c
  const OP_RJUMPI: byte := 0x5d
  const OP_RJUMPV: byte := 0x5e
  const OP_PUSH0: byte := 0x5f
  const OP_PUSH1: byte := 0x60
  const OP_PUSH8: byte := 0x67
  const OP_PUSH32: byte := 0x7f
  const OP_CALLF: byte := 0xb0
  const OP_RETF: byte := 0xb1
  const OP_DUPN: byte := 0xb5
  const OP_SWAPN: byte := 0xb6
  const OP_CREATE: byte := 0xf0
  const OP_CALL: byte := 0xf1
  const OP_CALLCODE: byte := 0xf2
  const OP_RETURN: byte := 0xf3
  const OP_DELEGATECALL: byte := 0xf4
  const OP_CREATE2: byte := 0xf5
  const OP_STATICCALL: byte := 0xfa
  const OP_REVERT: byte := 0xfd
  const OP_INVALID: byte := 0xfe
  const OP_SELFDESTRUCT: byte := 0xff

  const STACK_LIMIT := 1024

  predicate IsPush(op: byte) { OP_PUSH1 <= op <= OP_PUSH32 }

  /** `traits[op].immediate_size`; RJUMPV's is dynamic and listed as 0. */
  function ImmediateSize(op: byte): (n: nat)
    ensures n <= 32
  {
    if IsPush(op) then op - OP_PUSH1 + 1
    else if op == OP_RJUMP || op == OP_RJUMPI || op == OP_CALLF then 2
    else if op == OP_DUPN || op == OP_SWAPN then 1
    else 0
  }

  /** `traits[op].is_terminating`. */
  predicate IsTerminating(op: byte) {
    op == OP_STOP || op == OP_RETURN || op == OP_RETF || op == OP_REVERT || op == OP_INVALID
    || op == OP_SELFDESTRUCT
  }

  /** `traits[op].stack_height_required`. */
  function StackRequired(op: byte): (n: nat)
    ensures n <= 17
  {
    if 0x01 <= op <= 0x07 || op == 0x0a || op == 0x0b then 2            // ADD..SMOD, EXP, SIGNEXTEND
    else if op == 0x08 || op == 0x09 then 3                             // ADDMOD, MULMOD
    else if op == 0x15 || op == 0x19 then 1                             // ISZERO, NOT
    else if 0x10 <= op <= 0x1d || op == 0x20 then 2                     // LT..SAR, KECCAK256
    else if op == 0x31 || op == 0x35 || op == 0x3b || op == 0x3f || op == 0x40 then 1
    else if op == 0x37 || op == 0x39 || op == 0x3e then 3               // *COPY
    else if op == 0x3c then 4                                           // EXTCODECOPY
    else if op == 0x50 || op == 0x51 || op == 0x54 || op == 0x56 then 1 // POP, MLOAD, SLOAD, JUMP
    else if op == 0x52 || op == 0x53 || op == 0x55 || op == 0x57 then 2 // MSTORE*, SSTORE, JUMPI
    else if op == OP_RJUMPI || op == OP_RJUMPV then 1
    else if 0x80 <= op <= 0x8f then op - 0x7f                           // DUP1..DUP16
    else if 0x90 <= op <= 0x9f then op - 0x8e                           // SWAP1..SWAP16
    else if 0xa0 <= op <= 0xa4 then op - 0x9e                           // LOG0..LOG4
    else if op == OP_CREATE then 3
    else if op == OP_CALL || op == OP_CALLCODE then 7
    else if op == OP_RETURN || op == OP_REVERT then 2
    else if op == OP_DELEGATECALL || op == OP_STATICCALL then 6
    else if op == OP_CREATE2 then 4
    else if op == OP_SELFDESTRUCT then 1
    else 0
  }

  /** The number of items an instruction leaves in place of those it requires. */
  function StackProduced(op: byte): (n: nat)
    ensures n <= 17
  {
    if op == 0x00 || 0x37 == op || op == 0x39 || op == 0x3c || op == 0x3e then 0
    else if op <= 0x4f && Known(op) then 1
    else if op == 0x51 || op == 0x54 || op == 0x58 || op == 0x59 || op == 0x5a then 1
    else if 0x5f <= op <= 0x7f then 1
    else if 0x80 <= op <= 0x8f then op - 0x7e
    else if 0x90 <= op <= 0x9f then op - 0x8e
    else if op == OP_DUPN then 1
    else if op == OP_CREATE || op == OP_CALL || op == OP_CALLCODE || op == OP_DELEGATECALL
            || op == OP_CREATE2 || op == OP_STATICCALL then 1
    else 0
  }

  /** `traits[op].stack_height_change`. */
  function StackChange(op: byte): (d: int)
    ensures -17 <= d <= 1
    ensures StackRequired(op) + d >= 0
    ensures IsTerminating(op) ==> d <= 0
  {
    StackProduced(op) - StackRequired(op)
  }

  /** The opcodes of the `Opcode` enumeration. */
  predicate Known(op: byte) {
    op <= 0x0b || 0x10 <= op <= 0x1d || op == 0x20 || 0x30 <= op <= 0x48 || 0x50 <= op <= 0xa4
    || op == OP_CALLF || op == OP_RETF || op == OP_DUPN || op == OP_SWAPN
    || 0xf0 <= op <= 0xf5 || op == OP_STATICCALL || 0xfd <= op
  }

  /** The EVM revisions, in order. */
  type Revision = r: int | 0 <= r <= 13

  const HOMESTEAD: Revision := 1
  const TANGERINE_WHISTLE: Revision := 2
  const BYZANTIUM: Revision := 4
  const CONSTANTINOPLE: Revision := 5
  const ISTANBUL: Revision := 7
  const BERLIN: Revision := 8
  const LONDON: Revision := 9
  const SHANGHAI: Revision := 11
  const CANCUN: Revision := 12

  const UNDEFINED := -1

  /** `instr::undefined` before revision `first`, `cost` from it on. */
  function Since(rev: Revision, first: Revision, cost: nat): (g: int)
    ensures g == UNDEFINED <==> rev < first
  {
    if rev < first then UNDEFINED else cost
  }

  /** Base cost of the instructions that touch another account. */
  function AccountAccessCost(rev: Revision, frontier: nat, tangerine: nat): (g: nat)
    ensures rev >= BERLIN ==> g == 100
  {
    if rev < TANGERINE_WHISTLE then frontier else if rev < BERLIN then tangerine else 100
  }

  /** `gas_costs[rev][op]`. */
  function GasCost(rev: Revision, op: byte): (g: int)
    ensures g >= UNDEFINED
    ensures g != UNDEFINED ==> Known(op)
  {
    if op == OP_STOP || op == OP_RETURN || op == OP_INVALID || op == OP_SSTORE then 0
    else if op == 0x01 || op == 0x03 || (0x10 <= op <= 0x1a) then 3
    else if op == 0x02 || 0x04 <= op <= 0x07 || op == 0x0b then 5
    else if op == 0x08 || op == 0x09 then 8
    else if op == 0x0a then 10
    else if 0x1b <= op <= 0x1d then Since(rev, CONSTANTINOPLE, 3)
    else if op == 0x20 then 30
    else if op == 0x31 then
      (if TANGERINE_WHISTLE <= rev < ISTANBUL then 400 else AccountAccessCost(rev, 20, 700))
    else if op == 0x35 || op == 0x37 || op == 0x39 then 3
    else if op == 0x3b || op == 0x3c then AccountAccessCost(rev, 20, 700)
    else if op == 0x3d then Since(rev, BYZANTIUM, 2)
    else if op == 0x3e then Since(rev, BYZANTIUM, 3)
    else if op == 0x3f then
      (if CONSTANTINOPLE <= rev < ISTANBUL then 400
       else Since(rev, CONSTANTINOPLE, AccountAccessCost(rev, 20, 700)))
    else if op == 0x40 then 20
    else if op == 0x46 then Since(rev, ISTANBUL, 2)
    else if op == 0x47 then Since(rev, ISTANBUL, 5)
    else if op == 0x48 then Since(rev, LONDON, 2)
    else if 0x30 <= op <= 0x48 then 2
    else if op == 0x50 then 2
    else if 0x51 <= op <= 0x53 then 3
    else if op == 0x54 then
      (if rev < TANGERINE_WHISTLE then 50 else if rev < ISTANBUL then 200
       else if rev < BERLIN then 800 else 100)
    else if op == OP_JUMP then 8
    else if op == OP_JUMPI then 10
    else if op == OP_PC || op == 0x59 || op == OP_GAS then 2
    else if op == OP_JUMPDEST then 1
    else if op == OP_RJUMP then Since(rev, CANCUN, 2)
    else if op == OP_RJUMPI || op == OP_RJUMPV then Since(rev, CANCUN, 4)
    else if op == OP_PUSH0 then Since(rev, SHANGHAI, 2)
    else if 0x60 <= op <= 0x9f then 3
    else if 0xa0 <= op <= 0xa4 then (op - 0xa0 + 1) as int * 375
    else if op == OP_CALLF then Since(rev, CANCUN, 5)
    else if op == OP_RETF || op == OP_DUPN || op == OP_SWAPN then Since(rev, CANCUN, 3)
    else if op == OP_CREATE then 32000
    else if op == OP_CALL || op == OP_CALLCODE then AccountAccessCost(rev, 40, 700)
    else if op == OP_DELEGATECALL then Since(rev, HOMESTEAD, AccountAccessCost(rev, 40, 700))
    else if op == OP_CREATE2 then Since(rev, CONSTANTINOPLE, 32000)
    else if op == OP_STATICCALL then Since(rev, BYZANTIUM, AccountAccessCost(rev, 40, 700))
    else if op == OP_REVERT then Since(rev, BYZANTIUM, 0)
    else if op == OP_SELFDESTRUCT then (if rev < TANGERINE_WHISTLE then 0 else 5000)
    else UNDEFINED
  }

  /** Instructions of `eof_cost_tables[EVMC_CANCUN]`. */
  predicate DefinedInEof(op: byte) {
    GasCost(CANCUN, op) != UNDEFINED && op != OP_JUMP && op != OP_JUMPI && op != OP_PC
    && op != OP_CALLCODE && op != OP_SELFDESTRUCT
  }
}
