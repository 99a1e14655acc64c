/** The instruction tables listed by their values, and the edits each revision makes to the base costs, in place of the
    conditions of `Opcodes` (instructions_opcodes.hpp, instructions_traits.hpp, baseline_instruction_table.cpp). */
module OpcodeTables {
  import opened Bytes
  import opened Opcodes

  /** The instructions of Frontier other than PUSH, DUP, SWAP and LOG, by base cost. */
  const COST_0 := {0x00, 0x55, 0xf3, 0xfe, 0xff}
  const COST_2 := {0x30, 0x32, 0x33, 0x34, 0x36, 0x38, 0x3a, 0x41, 0x42, 0x43, 0x44, 0x45, 0x50, 0x58, 0x59, 0x5a}
  const COST_3 := {0x01, 0x03, 0x10, 0x11, 0x12, 0x13, 0x14, 0x15, 0x16, 0x17, 0x18, 0x19, 0x1a, 0x35, 0x37, 0x39, 0x51,
                   0x52, 0x53}
  const COST_5 := {0x02, 0x04, 0x05, 0x06, 0x07, 0x0b}

  lemma FrontierCosts(op: byte)
    ensures op in COST_0 ==> GasCost(0, op) == 0
    ensures op in COST_2 ==> GasCost(0, op) == 2
    ensures op in COST_3 || 0x60 <= op <= 0x9f ==> GasCost(0, op) == 3
    ensures op in COST_5 ==> GasCost(0, op) == 5
    ensures op in {0x08, 0x09, 0x56} ==> GasCost(0, op) == 8
    ensures op in {0x0a, 0x57} ==> GasCost(0, op) == 10
    ensures op in {0x31, 0x3b, 0x3c, 0x40} ==> GasCost(0, op) == 20
    ensures op in {0xf1, 0xf2} ==> GasCost(0, op) == 40
    ensures 0xa0 <= op <= 0xa4 ==> GasCost(0, op) == 375 * (op - 0x9f)
    ensures GasCost(0, 0x5b) == 1 && GasCost(0, 0x20) == 30 && GasCost(0, 0x54) == 50 && GasCost(0, 0xf0) == 32000
  {
  }

  lemma FrontierDefined(op: byte)
    ensures GasCost(0, op) != UNDEFINED <==>
              || op <= 0x0b || 0x10 <= op <= 0x1a || op == 0x20 || 0x30 <= op <= 0x3c || 0x40 <= op <= 0x45
              || 0x50 <= op <= 0x5b || 0x60 <= op <= 0xa4 || 0xf0 <= op <= 0xf3 || op >= 0xfe
  {
  }

  /** The entries in which the cost table of a revision differs from that of the revision before. */
  function Edits(rev: Revision): map<int, int> {
    match rev
    case 1 => map[0xf4 := 40]
    case 2 =>
      map[0x31 := 400, 0x3b := 700, 0x3c := 700, 0x54 := 200, 0xf1 := 700, 0xf2 := 700, 0xf4 := 700, 0xff := 5000]
    case 4 => map[0x3d := 2, 0x3e := 3, 0xfa := 700, 0xfd := 0]
    case 5 => map[0x1b := 3, 0x1c := 3, 0x1d := 3, 0x3f := 400, 0xf5 := 32000]
    case 7 => map[0x31 := 700, 0x3f := 700, 0x46 := 2, 0x47 := 5, 0x54 := 800]
    case 8 =>
      map[0x31 := 100, 0x3b := 100, 0x3c := 100, 0x3f := 100, 0x54 := 100, 0xf1 := 100, 0xf2 := 100, 0xf4 := 100,
          0xfa := 100]
    case 9 => map[0x48 := 2]
    case 11 => map[0x5f := 2]
    case 12 => map[0x5c := 2, 0x5d := 4, 0x5e := 4, 0xb0 := 5, 0xb1 := 3, 0xb5 := 3, 0xb6 := 3]
    case _ => map[]
  }

  /** The costs of a revision are those of the revision before, with its edits. */
  lemma CostEdits(rev: Revision, op: byte)
    requires rev > 0
    ensures GasCost(rev, op) == if op in Edits(rev) then Edits(rev)[op] else GasCost(rev - 1, op)
  {
    hide GasCost, Edits;
    if op in {0x31, 0x3f, 0x54, 0xff} {
      RepricedOftenEdits(rev, op);
    } else if op in {0x3b, 0x3c, 0xf1, 0xf2, 0xf4, 0xfa} {
      RepricedEdits(rev, op);
    } else {
      IntroducedEdits(rev, op);
    }
  }

  lemma RepricedOftenEdits(rev: Revision, op: byte)
    requires rev > 0 && op in {0x31, 0x3f, 0x54, 0xff}
    ensures GasCost(rev, op) == if op in Edits(rev) then Edits(rev)[op] else GasCost(rev - 1, op)
  {
  }

  lemma RepricedEdits(rev: Revision, op: byte)
    requires rev > 0 && op in {0x3b, 0x3c, 0xf1, 0xf2, 0xf4, 0xfa}
    ensures GasCost(rev, op) == if op in Edits(rev) then Edits(rev)[op] else GasCost(rev - 1, op)
  {
  }

  lemma IntroducedEdits(rev: Revision, op: byte)
    requires rev > 0 && op !in {0x31, 0x3b, 0x3c, 0x3f, 0x54, 0xf1, 0xf2, 0xf4, 0xfa, 0xff}
    ensures GasCost(rev, op) == if op in Edits(rev) then Edits(rev)[op] else GasCost(rev - 1, op)
  {
  }

  // ----- Traits -----

  /** The instructions other than PUSH, DUP, SWAP and LOG, by the stack items they need and the change they make. */
  const READS := {0x30, 0x32, 0x33, 0x34, 0x36, 0x38, 0x3a, 0x3d, 0x41, 0x42, 0x43, 0x44, 0x45, 0x46, 0x47, 0x48, 0x58,
                  0x59, 0x5a, 0x5f, 0xb5}
  const BINARY := {0x01, 0x02, 0x03, 0x04, 0x05, 0x06, 0x07, 0x0a, 0x0b, 0x10, 0x11, 0x12, 0x13, 0x14, 0x16, 0x17, 0x18,
                   0x1a, 0x1b, 0x1c, 0x1d, 0x20}

  predicate Needs(op: byte, required: int, change: int) {
    StackRequired(op) == required && StackChange(op) == change
  }

  lemma Arities(op: byte)
    ensures op in {0x00, 0x5b, 0x5c, 0xb0, 0xb1, 0xb6, 0xfe} ==> Needs(op, 0, 0)
    ensures op in READS || 0x60 <= op <= 0x7f ==> Needs(op, 0, 1)
    ensures op in {0x50, 0x56, 0x5d, 0x5e, 0xff} ==> Needs(op, 1, -1)
    ensures op in {0x15, 0x19, 0x31, 0x35, 0x3b, 0x3f, 0x40, 0x51, 0x54} ==> Needs(op, 1, 0)
    ensures op in {0x52, 0x53, 0x55, 0x57, 0xf3, 0xfd} ==> Needs(op, 2, -2)
    ensures op in BINARY ==> Needs(op, 2, -1)
    ensures op in {0x37, 0x39, 0x3e} ==> Needs(op, 3, -3)
    ensures op in {0x08, 0x09, 0xf0} ==> Needs(op, 3, -2)
    ensures op in {0xf4, 0xfa} ==> Needs(op, 6, -5)
    ensures op in {0xf1, 0xf2} ==> Needs(op, 7, -6)
    ensures Needs(0x3c, 4, -4) && Needs(0xf5, 4, -3)
  {
  }

  /** DUPn needs n items and adds one, SWAPn needs n + 1, LOGn takes its range and n topics, PUSHn has n bytes. */
  lemma Families(n: byte)
    ensures 1 <= n <= 16 ==> Needs(0x7f + n, n, 1) && Needs(0x8f + n, n + 1, 0)
    ensures n <= 4 ==> Needs(0xa0 + n, n + 2, -2 - n as int)
    ensures 1 <= n <= 32 ==> ImmediateSize(0x5f + n) == n
  {
  }

  lemma Immediates(op: byte)
    ensures op in {0x5c, 0x5d, 0xb0} ==> ImmediateSize(op) == 2
    ensures op in {0xb5, 0xb6} ==> ImmediateSize(op) == 1
    ensures op !in {0x5c, 0x5d, 0xb0, 0xb5, 0xb6} && !(0x60 <= op <= 0x7f) ==> ImmediateSize(op) == 0
    ensures IsTerminating(op) <==> op in {0x00, 0xb1, 0xf3, 0xfd, 0xfe, 0xff}
  {
  }

  /** EOF code may use what Cancun defines, except for JUMP, JUMPI, PC, CALLCODE and SELFDESTRUCT. */
  lemma EofInstructions(op: byte)
    ensures DefinedInEof(op) <==>
              op !in {0x56, 0x57, 0x58, 0xf2, 0xff} &&
              (op <= 0x0b || 0x10 <= op <= 0x1d || op == 0x20 || 0x30 <= op <= 0x48 || 0x50 <= op <= 0xa4
               || op in {0xb0, 0xb1, 0xb5, 0xb6, 0xf0, 0xf1, 0xf3, 0xf4, 0xf5, 0xfa, 0xfd, 0xfe})
  {
  }
}
