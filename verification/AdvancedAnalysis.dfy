/** `advanced::analyze` (advanced_analysis.cpp): legacy code compiled to blocks with summed-up requirements. */
module AdvancedAnalysis {
  import opened Bytes
  import opened Opcodes
  import opened LegacyCode
  import opened LegacyBlocks
  import opened Interpreters

  // ----- What the result of the analysis is -----

  /** The function the table of the revision holds. */
  function FnFor(rev: Revision, op: byte): Fn {
    if Defined(rev, op) then Fn(op) else Undefined
  }

  /** Instruction `ins` stands for the one at `p`, in a block whose base cost is `total`. */
  ghost predicate Compiled(code: Code, rev: Revision, ins: Instruction, p: nat, total: int) {
    && p < |code|
    && var op := code[p];
       && ins.fn == FnFor(rev, op)
       && (op == OP_GAS || SeesGas(op) ==> ins.number == total - After(code, rev, p).gas)
       && (op == OP_PC ==> ins.number == p)
       && (IsPush(op) ==> ins.value == PushValue(code, p))
       && (op == OP_JUMPDEST ==> ins.block == Close(Full(code, rev, p)) && total == Full(code, rev, p).gas)
       && (op == OP_JUMPI ==> ins.block == Close(Rest(code, rev, p + 1)))
  }

  /** Instruction `k` at `p` is followed by one at `q`: the next instruction of the code, in the same block unless a
      block begins there. */
  ghost predicate Follows(code: Code, rev: Revision, p: nat, q: nat, total: int, total': int) {
    && p < |code|
    && q == (if NextPos(code, p) <= |code| then NextPos(code, p) else |code|)
    && (q < |code| && code[q] != OP_JUMPDEST ==>
          total' == if code[p] == OP_JUMPI then Rest(code, rev, q).gas else total)
  }

  /** Instruction 0 begins the first block, instructions 1 .. n-2 are compiled from the code positions `pos`, and
      instruction n-1 is the final STOP. */
  ghost predicate InstrsOk(code: Code, rev: Revision, instrs: seq<Instruction>, pos: seq<nat>, totals: seq<int>) {
    var n := |instrs|;
    && n >= 2 && |pos| == |totals| == n
    && instrs[0].fn == BEGINBLOCK && instrs[0].block == Close(Rest(code, rev, 0))
    && pos[1] == 0 && (|code| > 0 && code[0] != OP_JUMPDEST ==> totals[1] == Rest(code, rev, 0).gas)
    && (forall k :: 1 <= k < n - 1 ==> Compiled(code, rev, instrs[k], pos[k], totals[k]))
    && (forall k :: 1 <= k < n - 1 && !EndsCode(code[pos[k]]) ==>
          Follows(code, rev, pos[k], pos[k + 1], totals[k], totals[k + 1]))
    && instrs[n - 1].fn == Fn(OP_STOP) && pos[n - 1] == |code|
  }

  /** The offsets are the valid jump destinations in order, each with the instruction compiled from it. */
  ghost predicate DestsOk(code: Code, a: Analysis, pos: seq<nat>) {
    && |a.jumpdestOffsets| == |a.jumpdestTargets| && |pos| == |a.instrs|
    && (forall i, j :: 0 <= i < j < |a.jumpdestOffsets| ==> a.jumpdestOffsets[i] < a.jumpdestOffsets[j])
    && (forall d :: d in a.jumpdestOffsets <==> d in JumpDests(code, 0))
    && (forall i :: 0 <= i < |a.jumpdestTargets| ==>
          1 <= a.jumpdestTargets[i] < |a.instrs| - 1 && pos[a.jumpdestTargets[i]] == a.jumpdestOffsets[i])
  }

  ghost predicate IsAnalysis(code: Code, rev: Revision, a: Analysis, pos: seq<nat>, totals: seq<int>) {
    InstrsOk(code, rev, a.instrs, pos, totals) && DestsOk(code, a, pos)
  }

  /** `find_jumpdest` finds an instruction exactly for the valid jump destinations, and then the block start compiled
      from that offset. */
  lemma FindJumpdestExact(code: Code, a: Analysis, pos: seq<nat>, offset: nat)
    requires DestsOk(code, a, pos)
    ensures FindJumpdest(a, offset) >= 0 <==> offset in JumpDests(code, 0)
    ensures FindJumpdest(a, offset) >= 0 ==>
              1 <= FindJumpdest(a, offset) < |a.instrs| - 1 && pos[FindJumpdest(a, offset)] == offset
  {
    var i := LowerBound(a.jumpdestOffsets, offset);
    if offset in a.jumpdestOffsets {
      var j :| 0 <= j < |a.jumpdestOffsets| && a.jumpdestOffsets[j] == offset;
      assert i <= j;
    }
  }

  /** Every jump destination is a JUMPDEST. */
  lemma {:induction false} DestIsJumpdest(code: Code, p: nat, d: nat)
    requires d in JumpDests(code, p)
    ensures d < |code| && code[d] == OP_JUMPDEST
    decreases |code| - p
  {
    if p < |code| && d != p {
      DestIsJumpdest(code, NextPos(code, p), d);
    }
  }

  // ----- PUSH operands -----

  /** The loop for PUSH1..PUSH8, which shifts the available bytes into place. */
  method SmallPush(code: Code, p: nat) returns (value: Word, q: nat)
    requires p < |code| && IsPush(code[p])
    ensures value == PushValue(code, p)
    ensures q == if NextPos(code, p) <= |code| then NextPos(code, p) else |code|
  {
    var n := PushSize(code[p]);
    var end := if p + 1 + n <= |code| then p + 1 + n else |code|;
    value, q := 0, p + 1;
    assert Shifted(code, p + 1, 0, n) == 0;
    hide Shifted, PaddedNumber;
    while q < end
      invariant p + 1 <= q <= end
      invariant value == Shifted(code, p + 1, q - p - 1, n)
    {
      var i := q - p - 1;
      value := value + code[q] as nat * Pow256(n - 1 - i);
      ShiftInByte(code, p + 1, i, n);
      q := q + 1;
    }
    TruncatedPush(code, p + 1, n);
  }

  /** The number held by the low `m` bytes of a little-endian array. */
  function LittleEndian(b: seq<byte>, m: nat): nat
    requires m <= |b|
  {
    if m == 0 then 0 else LittleEndian(b, m - 1) + b[m - 1] as nat * Pow256(m - 1)
  }

  /** Writing the bytes of a number downwards from position n-1 makes the array hold it. */
  lemma {:induction false} Reversed(code: Code, p: nat, n: nat, b: seq<byte>, i: nat)
    requires i <= n <= |b| && forall j :: 0 <= j < n ==> b[j] == Padded(code, p + n - 1 - j)
    ensures LittleEndian(b, n) == Shifted(code, p, i, n) + LittleEndian(b, n - i)
  {
    if i > 0 {
      Reversed(code, p, n, b, i - 1);
      assert b[n - i] == Padded(code, p + i - 1);
      ShiftInByte(code, p, i - 1, n);
    }
  }

  lemma {:induction false} HighZeros(b: seq<byte>, n: nat, m: nat)
    requires n <= m <= |b| && forall k :: n <= k < m ==> b[k] == 0
    ensures LittleEndian(b, m) == LittleEndian(b, n)
  {
    if m > n {
      HighZeros(b, n, m - 1);
    }
  }

  /** The loop for PUSH9..PUSH32, which copies the available bytes in reverse into a 256-bit number. */
  method LargePush(code: Code, p: nat) returns (value: Word, q: nat)
    requires p < |code| && IsPush(code[p])
    ensures value == PushValue(code, p)
    ensures q == if NextPos(code, p) <= |code| then NextPos(code, p) else |code|
  {
    var n := PushSize(code[p]);
    var bytes := new byte[32](_ => 0);
    q := p + 1;
    while q < p + 1 + n && q < |code|
      invariant p + 1 <= q <= p + 1 + n && q <= |code|
      invariant forall j :: n - (q - p - 1) <= j < n ==> bytes[j] == Padded(code, p + n - j)
      invariant forall j :: 0 <= j < 32 && (j < n - (q - p - 1) || j >= n) ==> bytes[j] == 0
    {
      bytes[n - 1 - (q - p - 1)] := code[q];
      q := q + 1;
    }
    var b := bytes[..];
    Reversed(code, p + 1, n, b, n);
    TruncatedPush(code, p + 1, n);
    HighZeros(b, n, 32);
    value := LittleEndian(b, 32);
  }

  // ----- Accumulating a block -----

  /** The `int` of `stack_change`, and of `stack_req` and `stack_max_growth`, which start at zero and only grow. */
  type Int32 = x: int | -MAX_INT - 1 <= x <= MAX_INT
  type Nat32 = x: int | 0 <= x <= MAX_INT

  /** `BlockAnalysis`: what has been summed up of the open block. */
  datatype Acc = Acc(gas: nat, req: Nat32, growth: Nat32, change: Int32)

  const NEW_BLOCK := Acc(0, 0, 0, 0)

  /** The open block requires `whole`; `acc` has been summed up and `rest` is still to come. */
  predicate Sums(whole: Block, acc: Acc, rest: Block) {
    && whole.gas == acc.gas + rest.gas
    && whole.req == Max(acc.req, rest.req - acc.change)
    && whole.growth == Max(acc.growth, acc.change + rest.growth)
    && acc.req + acc.change >= 0 && acc.growth >= acc.change
  }

  /** The stack bounds of a block fit an `int`. */
  predicate Narrow(b: Block) {
    b.req <= MAX_INT && b.growth <= MAX_INT
  }

  /** Those of every block do, so that no sum of the analysis overflows. */
  ghost predicate StackFits(code: Code, rev: Revision) {
    forall p :: 0 <= p < |code| ==> Narrow(Full(code, rev, p))
  }

  lemma NarrowFull(code: Code, rev: Revision, p: nat)
    requires StackFits(code, rev) && p < |code|
    ensures Narrow(Full(code, rev, p))
  {
    hide Full;
  }

  lemma NarrowRest(code: Code, rev: Revision, p: nat)
    requires StackFits(code, rev)
    ensures Narrow(Rest(code, rev, p))
  {
    hide Full;
  }

  /** The sums for one more instruction do not overflow. */
  predicate Fits(rev: Revision, acc: Acc, op: byte) {
    && TableReq(rev, op) - acc.change as int <= MAX_INT
    && -MAX_INT - 1 <= acc.change as int + TableChange(rev, op) <= MAX_INT
  }

  /** The update of the four sums for one instruction. */
  function Accumulate(rev: Revision, acc: Acc, op: byte): Acc
    requires Fits(rev, acc, op)
  {
    var change := acc.change + TableChange(rev, op);
    Acc(acc.gas + TableGas(rev, op), Max(acc.req, TableReq(rev, op) - acc.change), Max(acc.growth, change), change)
  }

  lemma SumsStep(rev: Revision, whole: Block, acc: Acc, op: byte, rest: Block)
    requires Sums(whole, acc, Then(rev, op, rest)) && Narrow(whole)
    ensures Fits(rev, acc, op) && Sums(whole, Accumulate(rev, acc, op), rest)
  {
    hide GasCost, StackRequired, StackChange;
  }

  /** The summed-up block is the whole block once nothing is to come. */
  lemma SumsDone(whole: Block, acc: Acc)
    requires Sums(whole, acc, EMPTY)
    ensures whole == Block(acc.gas, acc.req, acc.growth)
  {
  }

  /** A requirement or a change of the stack grows by at most 6 items per instruction, beyond the 17 of the last one, so
      code of up to 357 913 938 bytes has no block that overflows. */
  lemma ShortCodeFits(code: Code, rev: Revision)
    requires |code| <= 357_913_938
    ensures StackFits(code, rev)
  {
    hide Full;
    forall p | 0 <= p < |code|
      ensures Narrow(Full(code, rev, p))
    {
      BlockBound(code, rev, p);
    }
  }

  lemma SmallChange(rev: Revision, op: byte)
    ensures -6 <= TableChange(rev, op) <= 1 && TableReq(rev, op) <= 17
  {
    hide GasCost;
  }

  lemma {:induction false} BlockBound(code: Code, rev: Revision, p: nat)
    requires p < |code|
    ensures Full(code, rev, p).req <= 17 + 6 * (|code| - p) && Full(code, rev, p).growth <= |code| - p
    decreases |code| - p
  {
    hide GasCost, StackRequired, StackChange;
    SmallChange(rev, code[p]);
    var q := NextPos(code, p);
    assert Full(code, rev, p) == Then(rev, code[p], After(code, rev, p));
    if !EndsBlock(code[p]) && q < |code| && code[q] != OP_JUMPDEST {
      BlockBound(code, rev, q);
    }
  }

  // ----- The instructions built so far -----

  /** The base cost of the block that an instruction at `p`, following the last one built, belongs to. */
  ghost function NextTotal(code: Code, rev: Revision, pos: seq<nat>, totals: seq<int>, p: nat): int
    requires |pos| == |totals| > 0
  {
    var k := |pos| - 1;
    if k == 0 || (pos[k] < |code| && code[pos[k]] == OP_JUMPI) then Rest(code, rev, p).gas else totals[k]
  }

  /** The built instructions `final`, every block already holding its final requirements, stand for the code up to
      `p`, and `p` is where their successor begins. */
  ghost predicate Built(code: Code, rev: Revision, final: seq<Instruction>, pos: seq<nat>, totals: seq<int>, p: nat) {
    var n := |final|;
    && n >= 1 && |pos| == |totals| == n && p <= |code|
    && final[0].fn == BEGINBLOCK && final[0].block == Close(Rest(code, rev, 0))
    && (n >= 2 ==> pos[1] == 0 && (code != [] && code[0] != OP_JUMPDEST ==> totals[1] == Rest(code, rev, 0).gas))
    && (n == 1 ==> p == 0)
    && (forall k :: 1 <= k < n ==> Compiled(code, rev, final[k], pos[k], totals[k]))
    && (forall k :: 1 <= k < n - 1 && !EndsCode(code[pos[k]]) ==>
          Follows(code, rev, pos[k], pos[k + 1], totals[k], totals[k + 1]))
    && (n >= 2 ==>
          if EndsCode(code[pos[n - 1]]) then p == |code| || code[p] == OP_JUMPDEST
          else p == (if NextPos(code, pos[n - 1]) <= |code| then NextPos(code, pos[n - 1]) else |code|))
  }

  /** Appending the instruction at `p` keeps the prefix built. */
  lemma BuiltAppend(code: Code, rev: Revision, final: seq<Instruction>, pos: seq<nat>, totals: seq<int>, p: nat,
                    ins: Instruction, total: int, q: nat)
    requires Built(code, rev, final, pos, totals, p) && p < |code|
    requires Compiled(code, rev, ins, p, total)
    requires code[p] != OP_JUMPDEST ==> total == NextTotal(code, rev, pos, totals, p)
    requires q <= |code|
    requires if EndsCode(code[p]) then q == |code| || code[q] == OP_JUMPDEST
             else q == (if NextPos(code, p) <= |code| then NextPos(code, p) else |code|)
    ensures Built(code, rev, final + [ins], pos + [p], totals + [total], q)
  {
    hide Compiled, Rest, NextPos;
    var n := |final|;
    var final', pos', totals' := final + [ins], pos + [p], totals + [total];
    forall k | 1 <= k < n + 1
      ensures Compiled(code, rev, final'[k], pos'[k], totals'[k]) && pos'[k] < |code|
    {
      CompiledBound(code, rev, ins, p, total);
      if k < n {
        CompiledBound(code, rev, final[k], pos[k], totals[k]);
        assert Compiled(code, rev, final[k], pos[k], totals[k]);
      }
    }
    forall k | 1 <= k < n && !EndsCode(code[pos'[k]])
      ensures Follows(code, rev, pos'[k], pos'[k + 1], totals'[k], totals'[k + 1])
    {
      if k < n - 1 {
        assert Follows(code, rev, pos[k], pos[k + 1], totals[k], totals[k + 1]);
      }
    }
  }

  lemma CompiledBound(code: Code, rev: Revision, ins: Instruction, p: nat, total: int)
    requires Compiled(code, rev, ins, p, total)
    ensures p < |code|
  {
  }

  /** The jump destinations before `p` have been recorded. */
  ghost predicate DestsSoFar(code: Code, offsets: seq<nat>, targets: seq<nat>, pos: seq<nat>, p: nat) {
    && |offsets| == |targets|
    && (forall i, j :: 0 <= i < j < |offsets| ==> offsets[i] < offsets[j])
    && (forall d :: d in offsets <==> d in JumpDests(code, 0) && d < p)
    && (forall d :: d >= p ==> (d in JumpDests(code, 0) <==> d in JumpDests(code, p)))
    && (forall i :: 0 <= i < |targets| ==> 1 <= targets[i] < |pos| && pos[targets[i]] == offsets[i])
  }

  /** The variables of the analysis loop: instructions, the open block's index and sums, code position, jumpdests. */
  datatype Builder = Builder(instrs: seq<Instruction>, begin: nat, acc: Acc, codePos: nat, offsets: seq<nat>,
                             targets: seq<nat>)

  /** What they stand for: `final` are the instructions as they will be once the open block, which requires `whole`, is
      closed. */
  ghost predicate Building(code: Code, rev: Revision, b: Builder, final: seq<Instruction>, pos: seq<nat>,
                           totals: seq<int>, whole: Block) {
    && Built(code, rev, final, pos, totals, b.codePos)
    && b.begin < |final| && final == CloseAt(b.instrs, b.begin, whole)
    && Sums(whole, b.acc, Rest(code, rev, b.codePos))
    && (b.codePos < |code| && code[b.codePos] != OP_JUMPDEST ==>
          whole.gas == NextTotal(code, rev, pos, totals, b.codePos))
    && DestsSoFar(code, b.offsets, b.targets, pos, b.codePos)
  }

  /** Dumping the requirements of the closed block at its first instruction. */
  function CloseAt(instrs: seq<Instruction>, begin: nat, whole: Block): seq<Instruction> {
    if begin < |instrs| then instrs[begin := instrs[begin].(block := Close(whole))] else instrs
  }

  /** Skipping dead code up to the next JUMPDEST: no jump destination is passed over. */
  method SkipDead(code: Code, p: nat) returns (q: nat)
    requires p <= |code|
    ensures p <= q <= |code| && (q == |code| || code[q] == OP_JUMPDEST)
    ensures JumpDests(code, p) == JumpDests(code, q)
  {
    q := p;
    while q != |code| && code[q] != OP_JUMPDEST
      invariant p <= q <= |code|
      invariant JumpDests(code, p) == JumpDests(code, q)
      decreases |code| - q
    {
      if IsPush(code[q]) {
        assert JumpDests(code, NextPos(code, q)) == JumpDests(code, q);
        if q + 1 + PushSize(code[q]) <= |code| {
          q := q + 1 + PushSize(code[q]);
        } else {
          q := |code|;
        }
      } else {
        q := q + 1;
      }
    }
  }

  /** The arguments of the instruction at `p` that do not depend on its block being closed, and where decoding goes
      on. */
  method CompileOne(code: Code, rev: Revision, p: nat, acc: Acc, ghost whole: Block) returns (ins: Instruction, q: nat)
    requires p < |code| && Sums(whole, acc, After(code, rev, p))
    requires code[p] == OP_JUMPDEST ==> whole == Full(code, rev, p)
    ensures ins.block == EMPTY
    ensures code[p] == OP_JUMPDEST ==> Compiled(code, rev, ins.(block := Close(whole)), p, whole.gas)
    ensures code[p] == OP_JUMPI ==> Compiled(code, rev, ins.(block := Close(Rest(code, rev, p + 1))), p, whole.gas)
    ensures code[p] != OP_JUMPDEST && code[p] != OP_JUMPI ==> Compiled(code, rev, ins, p, whole.gas)
    ensures p < q <= |code| && JumpDests(code, q) == JumpDests(code, NextPos(code, p))
    ensures if EndsCode(code[p]) then q == |code| || code[q] == OP_JUMPDEST
            else q == (if NextPos(code, p) <= |code| then NextPos(code, p) else |code|)
  {
    var op := code[p];
    ins := Instruction(FnFor(rev, op), EMPTY, 0, 0);
    q := p + 1;
    if EndsCode(op) {
      q := SkipDead(code, p + 1);
    } else if IsPush(op) {
      var value;
      if op <= OP_PUSH8 {
        value, q := SmallPush(code, p);
      } else {
        value, q := LargePush(code, p);
      }
      ins := ins.(value := value);
    } else if op == OP_GAS || SeesGas(op) {
      ins := ins.(number := acc.gas);
    } else if op == OP_PC {
      ins := ins.(number := p);
    }
  }

  /** Moving past the instruction at `p`, recording it if it is a jump destination. */
  lemma DestsStep(code: Code, offsets: seq<nat>, targets: seq<nat>, pos: seq<nat>, p: nat, q: nat)
    requires DestsSoFar(code, offsets, targets, pos, p) && p < q <= |code| && p < |code| && |pos| >= 1
    requires JumpDests(code, q) == JumpDests(code, NextPos(code, p))
    ensures code[p] != OP_JUMPDEST ==> DestsSoFar(code, offsets, targets, pos + [p], q)
    ensures code[p] == OP_JUMPDEST ==> DestsSoFar(code, offsets + [p], targets + [|pos|], pos + [p], q)
  {
    var here := JumpDests(code, p);
    assert forall d :: d in here <==> (d == p && code[p] == OP_JUMPDEST) || d in JumpDests(code, q);
    assert forall d :: p <= d < q && d in JumpDests(code, 0) ==> d == p && code[p] == OP_JUMPDEST;
    if code[p] == OP_JUMPDEST {
      var offsets' := offsets + [p];
      assert forall d :: d in offsets' <==> d in offsets || d == p;
      assert forall i :: 0 <= i < |offsets| ==> offsets[i] in offsets;
    }
  }

  /** Closing the open block at the last instruction of the built prefix. */
  lemma ClosePrefix(instrs: seq<Instruction>, begin: nat, whole: Block, ins: Instruction)
    requires begin < |instrs|
    ensures CloseAt(instrs + [ins], begin, whole) == CloseAt(instrs, begin, whole) + [ins]
  {
  }

  lemma BuiltShape(code: Code, rev: Revision, final: seq<Instruction>, pos: seq<nat>, totals: seq<int>, p: nat)
    requires Built(code, rev, final, pos, totals, p)
    ensures |final| == |pos| == |totals| >= 1 && p <= |code|
  {
  }

  lemma InitialBuilding(code: Code, rev: Revision)
    ensures var start := [Instruction(BEGINBLOCK, EMPTY, 0, 0)];
            var whole := Rest(code, rev, 0);
            Building(code, rev, Builder(start, 0, NEW_BLOCK, 0, [], []), CloseAt(start, 0, whole), [0], [0], whole)
  {
    hide Rest, JumpDests, Compiled, Follows;
  }

  /** One turn of the analysis loop. */
  method AnalyzeOne(code: Code, rev: Revision, b: Builder, ghost final: seq<Instruction>, ghost pos: seq<nat>,
                    ghost totals: seq<int>, ghost whole: Block)
    returns (b': Builder, ghost final': seq<Instruction>, ghost totals': seq<int>, ghost whole': Block)
    requires Building(code, rev, b, final, pos, totals, whole) && b.codePos < |code|
    requires StackFits(code, rev) && Narrow(whole)
    ensures Building(code, rev, b', final', pos + [b.codePos], totals', whole') && b'.codePos > b.codePos
    ensures Narrow(whole')
  {
    hide Compiled, GasCost, StackRequired, StackChange, DestsSoFar, Built, StackFits, Narrow, Fits, Accumulate;
    hide TableReq;
    BuiltShape(code, rev, final, pos, totals, b.codePos);
    var p := b.codePos;
    var op := code[p];
    b', whole' := b, whole;
    if op == OP_JUMPDEST {
      SumsDone(whole, b.acc);
      b' := Builder(CloseAt(b.instrs, b.begin, Block(b.acc.gas, b.acc.req, b.acc.growth)), |b.instrs|, NEW_BLOCK, p,
                    b.offsets + [p], b.targets + [|b.instrs|]);
      whole' := Full(code, rev, p);
      NarrowFull(code, rev, p);
    }
    assert Full(code, rev, p) == Then(rev, op, After(code, rev, p));
    assert op != OP_JUMPDEST ==> Rest(code, rev, p) == Full(code, rev, p);
    assert Sums(whole', b'.acc, Then(rev, op, After(code, rev, p)));
    SumsStep(rev, whole', b'.acc, op, After(code, rev, p));
    var acc := Accumulate(rev, b'.acc, op);
    var ins, q := CompileOne(code, rev, p, acc, whole');
    ghost var ins' := if op == OP_JUMPDEST then ins.(block := Close(whole'))
                      else if op == OP_JUMPI then ins.(block := Close(Rest(code, rev, p + 1))) else ins;
    final', totals' := final + [ins'], totals + [whole'.gas];
    BuiltAppend(code, rev, final, pos, totals, p, ins', whole'.gas, q);
    DestsStep(code, b.offsets, b.targets, pos, p, q);
    if b.begin < |b.instrs| {
      ClosePrefix(b.instrs, b.begin, whole, ins);
    }
    b' := b'.(instrs := b'.instrs + [ins], acc := acc, codePos := q);
    if op == OP_JUMPI {
      SumsDone(whole', acc);
      b' := b'.(instrs := CloseAt(b'.instrs, b'.begin, Block(acc.gas, acc.req, acc.growth)),
                begin := |b'.instrs| - 1, acc := NEW_BLOCK);
      whole' := Rest(code, rev, p + 1);
      NarrowRest(code, rev, p + 1);
    }
  }

  /** The analysis compiles the code as specified. */
  method Analyze(code: Code, rev: Revision) returns (a: Analysis, ghost pos: seq<nat>, ghost totals: seq<int>)
    requires StackFits(code, rev)
    ensures IsAnalysis(code, rev, a, pos, totals)
    ensures |a.jumpdestOffsets| == |a.jumpdestTargets|
    ensures forall d: nat :: FindJumpdest(a, d) >= 0 <==> d in JumpDests(code, 0)
  {
    hide Building, Built, DestsSoFar, Rest, GasCost, IsAnalysis;
    var b := Builder([Instruction(BEGINBLOCK, EMPTY, 0, 0)], 0, NEW_BLOCK, 0, [], []);
    ghost var whole := Rest(code, rev, 0);
    ghost var final := CloseAt(b.instrs, 0, whole);
    pos, totals := [0], [0];
    InitialBuilding(code, rev);
    NarrowRest(code, rev, 0);
    while b.codePos != |code|
      invariant Building(code, rev, b, final, pos, totals, whole) && b.codePos <= |code| && Narrow(whole)
      decreases |code| - b.codePos
    {
      ghost var p := b.codePos;
      b, final, totals, whole := AnalyzeOne(code, rev, b, final, pos, totals, whole);
      pos := pos + [p];
      BuildingShape(code, rev, b, final, pos, totals, whole);
    }
    LastBlock(code, rev, b, final, pos, totals, whole);
    var instrs := CloseAt(b.instrs, b.begin, Block(b.acc.gas, b.acc.req, b.acc.growth));
    a := Analysis(instrs + [Instruction(FnFor(rev, OP_STOP), EMPTY, 0, 0)], b.offsets, b.targets);
    Finished(code, rev, final, pos, totals, a);
    pos, totals := pos + [|code|], totals + [0];
    AnalysisFinds(code, rev, a, pos, totals);
  }

  /** The sorted offset list denotes the valid jump destinations, although dead code has been skipped. */
  lemma AnalysisFinds(code: Code, rev: Revision, a: Analysis, pos: seq<nat>, totals: seq<int>)
    requires IsAnalysis(code, rev, a, pos, totals)
    ensures |a.jumpdestOffsets| == |a.jumpdestTargets|
    ensures forall d: nat :: FindJumpdest(a, d) >= 0 <==> d in JumpDests(code, 0)
  {
    hide InstrsOk, FindJumpdest, JumpDests;
    forall d: nat
      ensures FindJumpdest(a, d) >= 0 <==> d in JumpDests(code, 0)
    {
      FindJumpdestExact(code, a, pos, d);
    }
  }

  lemma BuildingShape(code: Code, rev: Revision, b: Builder, final: seq<Instruction>, pos: seq<nat>, totals: seq<int>,
                      whole: Block)
    requires Building(code, rev, b, final, pos, totals, whole)
    ensures b.codePos <= |code|
  {
  }

  /** At the end of the code nothing is left of the open block, and closing it gives the final instructions. */
  lemma LastBlock(code: Code, rev: Revision, b: Builder, final: seq<Instruction>, pos: seq<nat>, totals: seq<int>,
                  whole: Block)
    requires Building(code, rev, b, final, pos, totals, whole) && b.codePos == |code|
    ensures final == CloseAt(b.instrs, b.begin, Block(b.acc.gas, b.acc.req, b.acc.growth))
    ensures Built(code, rev, final, pos, totals, |code|) && DestsSoFar(code, b.offsets, b.targets, pos, |code|)
  {
    hide Built, DestsSoFar, CloseAt;
    assert Rest(code, rev, |code|) == EMPTY;
    SumsDone(whole, b.acc);
  }

  lemma StopDefined(rev: Revision)
    ensures Defined(rev, OP_STOP)
  {
  }

  /** The final STOP completes the analysis. */
  lemma Finished(code: Code, rev: Revision, final: seq<Instruction>, pos: seq<nat>, totals: seq<int>, a: Analysis)
    requires Built(code, rev, final, pos, totals, |code|)
    requires DestsSoFar(code, a.jumpdestOffsets, a.jumpdestTargets, pos, |code|)
    requires a.instrs == final + [Instruction(FnFor(rev, OP_STOP), EMPTY, 0, 0)]
    ensures IsAnalysis(code, rev, a, pos + [|code|], totals + [0])
  {
    hide Compiled, GasCost, Rest;
    StopDefined(rev);
    var n := |final|;
    var instrs, pos', totals' := a.instrs, pos + [|code|], totals + [0];
    forall k | 1 <= k < n
      ensures Compiled(code, rev, instrs[k], pos'[k], totals'[k]) && pos'[k] < |code|
    {
      assert Compiled(code, rev, final[k], pos[k], totals[k]);
      CompiledBound(code, rev, final[k], pos[k], totals[k]);
    }
    forall k | 1 <= k < n && !EndsCode(code[pos'[k]])
      ensures Follows(code, rev, pos'[k], pos'[k + 1], totals'[k], totals'[k + 1])
    {
      if k < n - 1 {
        assert Follows(code, rev, pos[k], pos[k + 1], totals[k], totals[k + 1]);
      }
    }
  }
}
