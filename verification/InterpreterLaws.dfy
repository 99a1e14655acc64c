/** What the baseline interpreter does, by opcode number: the laws of single steps and how whole runs end. By
    `Simulation.Execute` the advanced interpreter ends its runs in the same way. */
module InterpreterLaws {
  import opened Bytes
  import opened Opcodes
  import opened OpcodeTables
  import opened LegacyCode
  import opened LegacyBlocks
  import opened Interpreters
  import opened Simulation

  /** An instruction is admitted when it is defined, its operands are on the stack, its result has room, and the gas
      covers its base cost. */
  lemma AdmittedLaw(rev: Revision, op: byte, height: nat, gas: int)
    requires height <= 1024
    ensures Admitted(rev, op, height, gas) <==>
              && GasCost(rev, op) >= 0 && gas >= GasCost(rev, op)
              && height >= StackRequired(op) && height + StackChange(op) <= 1024
  {
    hide GasCost, StackRequired;
  }

  lemma RefusedLaw<W>(code: Code, rev: Revision, core: Core<W>, s: Base<W>)
    ensures !Admitted(rev, Padded(code, s.pc), |s.stack|, s.gas) ==> BaseStep(code, rev, core, s) == Stop(Failed)
  {
    hide Admitted, BaseInvoke;
  }

  /** The opcode about to run, admitted with `left` gas after its base cost. */
  ghost predicate Runs<W>(code: Code, rev: Revision, s: Base<W>, op: byte, left: int) {
    Padded(code, s.pc) == op && Admitted(rev, op, |s.stack|, s.gas) && left == s.gas - GasCost(rev, op)
  }

  lemma Invoked<W>(code: Code, rev: Revision, core: Core<W>, s: Base<W>, op: byte, left: int)
    requires Runs(code, rev, s, op, left)
    ensures |s.stack| >= StackRequired(op) && left >= 0
    ensures BaseStep(code, rev, core, s) == BaseInvoke(code, core, op, s.(gas := left))
  {
    hide GasCost, StackRequired, StackChange, BaseInvoke;
  }

  /** JUMP goes to the item it pops, if that is a jump destination. JUMPI goes on behind it when the second item is
      zero, and does the same with the first item otherwise. */
  lemma JumpLaw<W>(code: Code, rev: Revision, core: Core<W>, s: Base<W>, op: byte, left: int)
    requires Runs(code, rev, s, op, left) && op in {0x56, 0x57}
    ensures var r, n := BaseStep(code, rev, core, s), |s.stack|;
            && n >= 1 && (op == 0x57 ==> n >= 2)
            && var rest := if op == 0x56 then s.stack[..n - 1] else s.stack[..n - 2];
               r == if op == 0x57 && s.stack[n - 2] == 0 then Continue(Base(s.pc + 1, rest, left, s.world))
                    else if s.stack[n - 1] in JumpDests(code, 0)
                    then Continue(Base(s.stack[n - 1], rest, left, s.world))
                    else Stop(Failed)
  {
    hide GasCost, StackRequired, StackChange, Admitted, BaseStep, JumpDests;
    Invoked(code, rev, core, s, op, left);
    Arities(op);
  }

  /** PC pushes its own position, GAS what is left after its cost, PUSHn its n bytes as a big-endian number, bytes
      beyond the code counting as zero; JUMPDEST does nothing. */
  lemma PushLaw<W>(code: Code, rev: Revision, core: Core<W>, s: Base<W>, op: byte, left: int)
    requires Runs(code, rev, s, op, left)
    ensures var r := BaseStep(code, rev, core, s);
            && (op == 0x58 ==> r == Continue(Base(s.pc + 1, s.stack + [s.pc], left, s.world)))
            && (op == 0x5a ==> left >= 0 && r == Continue(Base(s.pc + 1, s.stack + [left], left, s.world)))
            && (op == 0x5b ==> r == Continue(Base(s.pc + 1, s.stack, left, s.world)))
            && (0x60 <= op <= 0x7f ==>
                  var n := op - 0x5f;
                  r == Continue(Base(s.pc + 1 + n, s.stack + [PaddedNumber(code, s.pc + 1, n)], left, s.world)))
  {
    hide GasCost, StackRequired, StackChange, Admitted, BaseStep, PaddedNumber, JumpDests;
    Invoked(code, rev, core, s, op, left);
  }

  /** SSTORE, CREATE, CALL, CALLCODE, DELEGATECALL, CREATE2 and STATICCALL are given the gas left after their base cost
      and say what remains. */
  const SEE_GAS := {0x55, 0xf0, 0xf1, 0xf2, 0xf4, 0xf5, 0xfa}

  /** STOP, JUMP, JUMPI, PC, GAS, JUMPDEST, PUSHn and the instructions that end a run are not core functions of the
      stack and the world alone. */
  const OWN := {0x00, 0x56, 0x57, 0x58, 0x5a, 0x5b, 0xf3, 0xfd, 0xfe, 0xff}

  lemma CoreLaw<W>(code: Code, rev: Revision, core: Core<W>, s: Base<W>, op: byte, left: int)
    requires Runs(code, rev, s, op, left) && op !in OWN && !(0x60 <= op <= 0x7f)
    ensures var r := BaseStep(code, rev, core, s);
            if op in SEE_GAS then
              var e := core.runWithGas(op, s.stack, left, s.world);
              r == if e.ok then Continue(Base(s.pc + 1, e.stack, e.gas, e.world)) else Stop(Failed)
            else
              var e := core.run(op, s.stack, s.world);
              r == if e.ok && e.cost <= left then Continue(Base(s.pc + 1, e.stack, left - e.cost, e.world))
                   else Stop(Failed)
  {
    hide GasCost, StackRequired, StackChange, Admitted, BaseStep, JumpDests;
    Invoked(code, rev, core, s, op, left);
  }

  /** STOP, and running off the end of the code, succeeds; INVALID fails; RETURN and SELFDESTRUCT succeed and REVERT
      reverts if their core function does and its cost can be paid. */
  lemma HaltLaw<W>(code: Code, rev: Revision, core: Core<W>, s: Base<W>, op: byte, left: int)
    requires Runs(code, rev, s, op, left) && op in {0x00, 0xf3, 0xfd, 0xfe, 0xff}
    ensures var r, e := BaseStep(code, rev, core, s), core.run(op, s.stack, s.world);
            && (op == 0x00 ==> r == Stop(Done(Success, left, s.world)))
            && (op == 0xfe ==> r == Stop(Failed))
            && (op in {0xf3, 0xfd, 0xff} ==>
                  r == if e.ok && e.cost <= left
                       then Stop(Done(if op == 0xfd then Revert else Success, left - e.cost, e.world))
                       else Stop(Failed))
  {
    hide GasCost, StackRequired, StackChange, Admitted, BaseStep, JumpDests;
    Invoked(code, rev, core, s, op, left);
  }

  // ----- Whole runs -----

  /** `t` is reached from `s` by steps that continue. */
  ghost predicate Reaches<W>(code: Code, rev: Revision, core: Core<W>, s: Base<W>, t: Base<W>, n: nat)
    decreases n
  {
    if n == 0 then s == t
    else
      var r := BaseStep(code, rev, core, s);
      r.Continue? && Reaches(code, rev, core, r.state, t, n - 1)
  }

  /** The 33 bytes of padding suffice: no run reads beyond them, nor beyond the 1024 items of the stack. */
  lemma {:induction false} PaddingSuffices<W(!new)>(code: Code, rev: Revision, core: Core<W>, s: Base<W>, t: Base<W>,
                                                    n: nat)
    requires rev <= SHANGHAI && ValidCore(core) && s.pc < |code| + 33 && s.gas >= 0 && |s.stack| <= 1024
    requires Reaches(code, rev, core, s, t, n)
    ensures t.pc < |code| + 33 && 0 <= t.gas <= s.gas && |t.stack| <= 1024
    decreases n
  {
    hide GasCost, StackRequired, StackChange, BaseStep, ValidCore;
    if n > 0 {
      BaseStepOk(code, rev, core, s);
      PaddingSuffices(code, rev, core, BaseStep(code, rev, core, s).state, t, n - 1);
    }
  }

  /** The instruction at `s` ends the run with a result: a STOP, or a RETURN, REVERT or SELFDESTRUCT that does not
      fail. */
  ghost predicate Ends<W>(code: Code, rev: Revision, core: Core<W>, s: Base<W>) {
    var op := if s.pc < |code| then code[s.pc] else 0x00;
    && Admitted(rev, op, |s.stack|, s.gas)
    && (op == 0x00 ||
        (op in {0xf3, 0xfd, 0xff} &&
         var e := core.run(op, s.stack, s.world); e.ok && e.cost <= s.gas - GasCost(rev, op)))
  }

  lemma StopsAt<W>(code: Code, rev: Revision, core: Core<W>, s: Base<W>)
    requires BaseStep(code, rev, core, s).Stop?
    ensures var outcome, op := BaseStep(code, rev, core, s).outcome, Padded(code, s.pc);
            && (outcome.Done? <==> Ends(code, rev, core, s))
            && (outcome.Done? ==> (outcome.status == Revert <==> op == 0xfd))
  {
    hide GasCost, StackRequired, StackChange, BaseStep, Admitted, JumpDests, PaddedNumber;
    var op := Padded(code, s.pc);
    if Admitted(rev, op, |s.stack|, s.gas) {
      var left := s.gas - GasCost(rev, op);
      if op in {0x00, 0xf3, 0xfd, 0xfe, 0xff} {
        HaltLaw(code, rev, core, s, op, left);
      } else if op in {0x56, 0x57} {
        JumpLaw(code, rev, core, s, op, left);
      } else if op in {0x58, 0x5a, 0x5b} || 0x60 <= op <= 0x7f {
        PushLaw(code, rev, core, s, op, left);
      } else {
        CoreLaw(code, rev, core, s, op, left);
      }
    } else {
      RefusedLaw(code, rev, core, s);
    }
  }

  /** Every run ends at some instruction, and how it ends is decided there. A run reverts exactly when its last
      instruction is a REVERT that is admitted and does not fail, and succeeds exactly when it is a STOP, the end of
      the code, a RETURN or a SELFDESTRUCT; in every other case, INVALID among them, it fails. */
  lemma {:induction false} RunEnds<W(!new)>(code: Code, rev: Revision, core: Core<W>, s: Base<W>)
    returns (last: Base<W>, n: nat)
    requires rev <= SHANGHAI && ValidCore(core) && BaseOk(code, s)
    ensures Reaches(code, rev, core, s, last, n) && BaseStep(code, rev, core, last) == Stop(BaseRun(code, rev, core, s))
    ensures var outcome, op := BaseRun(code, rev, core, s), if last.pc < |code| then code[last.pc] else 0x00;
            && (outcome.Done? <==> Ends(code, rev, core, last))
            && (outcome.Done? && outcome.status == Revert <==> Ends(code, rev, core, last) && op == 0xfd)
            && (outcome.Done? && outcome.status == Success <==> Ends(code, rev, core, last) && op in {0x00, 0xf3, 0xff})
    decreases s.gas, |code| + PADDING - s.pc
  {
    hide GasCost, StackRequired, StackChange, BaseStep, Admitted, ValidCore;
    BaseStepOk(code, rev, core, s);
    var r := BaseStep(code, rev, core, s);
    if r.Stop? {
      last, n := s, 0;
      StopsAt(code, rev, core, s);
    } else {
      last, n := RunEnds(code, rev, core, r.state);
      n := n + 1;
    }
  }

  /** The result of a run is that of its last instruction: what is left after the base cost and, unless it is STOP, the
      dynamic cost, and the world its core function leaves. */
  lemma RunResult<W(!new)>(code: Code, rev: Revision, core: Core<W>, s: Base<W>) returns (last: Base<W>, n: nat)
    requires rev <= SHANGHAI && ValidCore(core) && BaseOk(code, s)
    ensures Reaches(code, rev, core, s, last, n)
    ensures var outcome, op := BaseRun(code, rev, core, s), if last.pc < |code| then code[last.pc] else 0x00;
            var left, e := last.gas - GasCost(rev, op), core.run(op, last.stack, last.world);
            outcome.Done? ==>
              if op == 0x00 then outcome.gas == left && outcome.world == last.world
              else e.ok && outcome.gas == left - e.cost >= 0 && outcome.world == e.world
  {
    hide GasCost, StackRequired, StackChange, BaseStep, Admitted, ValidCore, BaseRun, Reaches;
    last, n := RunEnds(code, rev, core, s);
    var op := Padded(code, last.pc);
    if BaseRun(code, rev, core, s).Done? {
      HaltLaw(code, rev, core, last, op, last.gas - GasCost(rev, op));
    }
  }
}
