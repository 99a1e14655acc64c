/** What one turn of the interpreter does at an instruction of a validated section, by opcode number and byte position:
    where control goes, what happens to the two stacks, and for what reason it stops. */
module EofLaws {
  import opened Bytes
  import opened Opcodes
  import opened OpcodeTables
  import opened EofCode
  import opened EofStack
  import opened EofRuntime
  import opened EofReturns

  /** The instruction at `m.pc` is at `i` in section `s`. */
  ghost predicate Here(x: Image, f: Frame, m: Machine, s: Section, i: nat) {
    && f.section < |x.sections| && f.section < |x.p.offsets| && s == SectionAt(x, f.section)
    && i == m.pc - x.p.offsets[f.section] && i < |s.code| && i + InstrSize(s.code, i) <= |s.code|
    && Lies(x.p, m, s, i) && m.pc < |x.p.exec| && x.p.exec[m.pc] == s.code[i] && DefinedInEof(s.code[i])
    && m.height >= StackRequired(s.code[i]) && m.height + StackChange(s.code[i]) <= STACK_LIMIT
  }

  lemma FindHere(x: Image, f: Frame, depth: nat, m: Machine) returns (s: Section, i: nat)
    requires Ready(x) && At(x, f, depth, m)
    ensures Here(x, f, m, s, i) && (IsJump(s.code[i]) ==> InstrSize(s.code, i) >= 3)
  {
    hide Loaded, Checked, Instrs, JumpsOk, Placed, NodeAt, GasCost, StackRequired, StackChange, DefinedInEof, InstrSize;
    ChecksPass(x.p, x.sections, x.heights, m, f);
    i, s := PlacedFacts(x.p, x.sections, x.heights, f.section, m.pc, m.height - f.base);
  }

  lemma CallBytes(x: Image, f: Frame, depth: nat, m: Machine)
    requires Ready(x) && At(x, f, depth, m) && 0 <= m.pc < |x.p.exec| && x.p.exec[m.pc] == OP_CALLF
    ensures m.pc + 2 < |x.p.exec| && U16(x.p.exec, m.pc + 1) < |x.p.types| == |x.p.offsets|
  {
    hide Checked, Instrs, JumpsOk, SectionLoaded, Placed, NodeAt, GasCost, DefinedInEof, InstrSize;
    var i, s := PlacedFacts(x.p, x.sections, x.heights, f.section, m.pc, m.height - f.base);
    assert x.p.exec[m.pc] == s.code[i];
    CallFacts(s, i);
    assert x.p.exec[m.pc + 1] == s.code[i + 1] && x.p.exec[m.pc + 2] == s.code[i + 2];
  }

  /** The bytes of a jump and of its table lie in the code. */
  lemma JumpBytes(x: Image, f: Frame, m: Machine, s: Section, i: nat)
    requires Here(x, f, m, s, i) && IsJump(s.code[i]) && InstrSize(s.code, i) >= 3
    ensures m.pc + 2 < |x.p.exec| && x.p.exec[m.pc + 1] == s.code[i + 1]
    ensures s.code[i] == OP_RJUMPV ==> m.pc + 2 + 2 * x.p.exec[m.pc + 1] as int <= |x.p.exec|
  {
    hide DefinedInEof, StackRequired, StackChange, Lies;
    SameByte(x.p, m, s, i, 1);
    SameByte(x.p, m, s, i, 2);
    InBounds(x.p, m, s, i);
  }

  lemma DepthByte(x: Image, f: Frame, m: Machine, s: Section, i: nat)
    requires Here(x, f, m, s, i) && (s.code[i] == OP_DUPN || s.code[i] == OP_SWAPN)
    ensures m.pc + 1 < |x.p.exec|
  {
    hide DefinedInEof, StackRequired, StackChange, Lies;
    SameByte(x.p, m, s, i, 1);
  }

  /** The checks of `Step` pass. */
  lemma Passed(x: Image, f: Frame, m: Machine, s: Section, i: nat)
    requires Here(x, f, m, s, i)
    ensures 0 <= m.pc < |x.p.exec| && DefinedInEof(x.p.exec[m.pc]) && m.height >= StackRequired(x.p.exec[m.pc])
    ensures !(StackChange(x.p.exec[m.pc]) > 0 && m.height == STACK_LIMIT)
  {
    hide DefinedInEof, StackRequired, StackChange, InstrSize;
  }

  /** The reasons to stop. */
  lemma StopLaw(x: Image, f: Frame, depth: nat, m: Machine, input: Input)
    requires Ready(x) && At(x, f, depth, m)
    ensures 0 <= m.pc < |x.p.exec|
    ensures var r, op := Step(x.p, m, input), x.p.exec[m.pc];
            && r != CheckFailed && (r == OwnFailure <==> input.fails)
            && (!input.fails ==>
                  && (r == Halted <==> op in {0x00, 0xf3, 0xfd, 0xfe})
                  && (r == Broken <==> op == 0xb1 && m.callStack == [])
                  && (r == CallOverflow ==> op == 0xb0) && (r == DepthFailure ==> op in {0xb5, 0xb6}))
  {
    hide Loaded, GasCost, StackRequired, StackChange, DefinedInEof, JumpTarget, At, Here;
    var s, i := FindHere(x, f, depth, m);
    Passed(x, f, m, s, i);
    var op := x.p.exec[m.pc];
    EofInstructions(op);
    Immediates(op);
    HereIs(x, f, m, s, i);
    if op == OP_CALLF {
      CallBytes(x, f, depth, m);
    } else if IsJump(op) {
      JumpBytes(x, f, m, s, i);
    } else if op == OP_DUPN || op == OP_SWAPN {
      DepthByte(x, f, m, s, i);
    }
  }

  lemma HereIs(x: Image, f: Frame, m: Machine, s: Section, i: nat)
    requires Here(x, f, m, s, i)
    ensures i < |s.code| && 0 <= m.pc < |x.p.exec| && x.p.exec[m.pc] == s.code[i] && m.pc - i == x.p.offsets[f.section]
    ensures i + InstrSize(s.code, i) <= |s.code| && s == SectionAt(x, f.section) && Lies(x.p, m, s, i)
  {
    hide DefinedInEof, StackRequired, StackChange, InstrSize;
  }

  /** Relative jumps. RJUMP goes to its target. RJUMPI goes on when the item it pops is zero and to its target
      otherwise. RJUMPV goes to the entry of its table that the item it pops selects, and on when there is none.
      Targets count, as a signed big-endian number, from the end of the instruction, and are those the validator has
      checked. */
  lemma BranchLaw(x: Image, f: Frame, depth: nat, m: Machine, top: nat)
    requires Ready(x) && At(x, f, depth, m)
    ensures 0 <= m.pc < |x.p.exec|
    ensures var r, op, exec := Step(x.p, m, Input(top, false)), x.p.exec[m.pc], x.p.exec;
            op in {0x5c, 0x5d, 0x5e} ==>
              && m.pc + 2 < |exec| && r.Next? && r.m.callStack == m.callStack
              && r.m.height == (if op == 0x5c then m.height else m.height - 1)
              && (op == 0x5c || (op == 0x5d && top != 0) ==> r.m.pc == m.pc + 3 + I16(exec, m.pc + 1))
              && (op == 0x5d && top == 0 ==> r.m.pc == m.pc + 3)
              && (op == 0x5e ==>
                    var count := exec[m.pc + 1] as int;
                    && m.pc + 2 + 2 * count <= |exec|
                    && r.m.pc == m.pc + 2 + 2 * count + if top < count then I16(exec, m.pc + 2 + 2 * top) else 0)
  {
    hide Loaded, GasCost, StackRequired, StackChange, DefinedInEof, At, Here, I16;
    var s, i := FindHere(x, f, depth, m);
    Passed(x, f, m, s, i);
    HereIs(x, f, m, s, i);
    Arities(x.p.exec[m.pc]);
    if IsJump(s.code[i]) {
      JumpBytes(x, f, m, s, i);
    }
  }

  /** The same with the targets of the validator. */
  lemma BranchTargets(x: Image, f: Frame, depth: nat, m: Machine, top: nat) returns (s: Section, i: nat)
    requires Ready(x) && At(x, f, depth, m)
    ensures Here(x, f, m, s, i)
    ensures var r, offset := Step(x.p, m, Input(top, false)), x.p.offsets[f.section];
            && (s.code[i] == 0x5c ==> r.Next? && r.m.pc == offset + Target(s.code, i, 0))
            && (s.code[i] == 0x5d ==> r.Next? && r.m.pc == offset + if top == 0 then i + 3 else Target(s.code, i, 0))
            && (s.code[i] == 0x5e ==>
                  r.Next? && r.m.pc == offset + if top < TargetCount(s.code, i) then Target(s.code, i, top)
                                                else i + InstrSize(s.code, i))
  {
    hide Loaded, GasCost, StackRequired, StackChange, DefinedInEof, At, Here, I16, Step;
    s, i := FindHere(x, f, depth, m);
    HereIs(x, f, m, s, i);
    BranchLaw(x, f, depth, m, top);
    if s.code[i] == 0x5c || s.code[i] == 0x5d {
      SameOffset(x.p, m, s, i, 1);
    } else if s.code[i] == 0x5e {
      SameByte(x.p, m, s, i, 1);
      if top < s.code[i + 1] as int {
        SameOffset(x.p, m, s, i, 2 + 2 * top);
      }
    }
  }

  lemma SameOffset(p: Program, m: Machine, s: Section, i: nat, k: nat)
    requires Lies(p, m, s, i) && i + k + 1 < |s.code|
    ensures 0 <= m.pc && m.pc + k + 1 < |p.exec| && I16(p.exec, m.pc + k) == I16(s.code, i + k)
  {
    hide Lies;
    SameByte(p, m, s, i, k);
    SameByte(p, m, s, i, k + 1);
  }

  /** CALLF enters the section it names at the height it has, if the declared maximum of that section has room and the
      call stack is not full; RETF goes back to the last call that has not returned. */
  lemma CallLaw(x: Image, f: Frame, depth: nat, m: Machine)
    requires Ready(x) && At(x, f, depth, m)
    ensures 0 <= m.pc < |x.p.exec|
    ensures var r, op, exec := Step(x.p, m, Input(0, false)), x.p.exec[m.pc], x.p.exec;
            && (op == 0xb0 ==>
                  && m.pc + 2 < |exec| && U16(exec, m.pc + 1) < |x.p.types| == |x.p.offsets|
                  && var k := U16(exec, m.pc + 1);
                     r == if m.height + x.p.types[k].maxStackHeight <= 1024 && depth < 1024
                          then Next(Machine(x.p.offsets[k], m.height, m.callStack + [m.pc + 3])) else CallOverflow)
            && (op == 0xb1 && depth > 0 ==>
                  r == Next(Machine(m.callStack[depth - 1], m.height, m.callStack[..depth - 1])))
  {
    hide Loaded, GasCost, StackRequired, StackChange, DefinedInEof, Here, JumpTarget, Placed, Fits;
    var s, i := FindHere(x, f, depth, m);
    Passed(x, f, m, s, i);
    HereIs(x, f, m, s, i);
    if x.p.exec[m.pc] == OP_CALLF {
      CallBytes(x, f, depth, m);
    }
  }

  /** DUPN and SWAPN reach as deep as the byte that follows them says, against the whole stack; every other instruction
      that neither stops nor jumps goes on after its immediate, with the stack changed as the traits say. */
  lemma StraightLaw(x: Image, f: Frame, depth: nat, m: Machine)
    requires Ready(x) && At(x, f, depth, m)
    ensures 0 <= m.pc < |x.p.exec|
    ensures var r, op, exec := Step(x.p, m, Input(0, false)), x.p.exec[m.pc], x.p.exec;
            && (op in {0xb5, 0xb6} ==>
                  && m.pc + 1 < |exec|
                  && var n := exec[m.pc + 1] as int + 1;
                     r == if m.height >= (if op == 0xb5 then n else n + 1)
                          then Next(Machine(m.pc + 2, if op == 0xb5 then m.height + 1 else m.height, m.callStack))
                          else DepthFailure)
            && (op !in {0x00, 0xf3, 0xfd, 0xfe, 0xb0, 0xb1, 0xb5, 0xb6, 0x5c, 0x5d, 0x5e} ==>
                  r == Next(Machine(m.pc + 1 + ImmediateSize(op), m.height + StackChange(op), m.callStack)))
  {
    hide Loaded, GasCost, StackRequired, StackChange, DefinedInEof, Here, JumpTarget, At;
    var s, i := FindHere(x, f, depth, m);
    Passed(x, f, m, s, i);
    HereIs(x, f, m, s, i);
    EofInstructions(x.p.exec[m.pc]);
    Immediates(x.p.exec[m.pc]);
    if x.p.exec[m.pc] in {OP_DUPN, OP_SWAPN} {
      DepthByte(x, f, m, s, i);
    }
  }
}
