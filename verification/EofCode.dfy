/** Instruction and relative-jump validation of one EOF code section (eof.cpp). */
module EofCode {
  import opened Bytes
  import opened Opcodes

  /** `EOFValidationError`, the members `validate_eof1` can return. */
  datatype Error =
    | Success
    | IncompleteSectionSize
    | IncompleteSectionNumber
    | HeaderTerminatorMissing
    | TypeSectionMissing
    | CodeSectionMissing
    | DataSectionMissing
    | ZeroSectionSize
    | SectionHeadersNotTerminated
    | InvalidSectionBodiesSize
    | UndefinedInstruction
    | TruncatedInstruction
    | InvalidRjumpvCount
    | InvalidRjumpDestination
    | TooManyCodeSections
    | InvalidTypeSectionSize
    | InvalidFirstSectionType
    | InvalidMaxStackHeight
    | NoTerminatingInstruction
    | StackHeightMismatch
    | NonEmptyStackOnTerminatingInstruction
    | MaxStackHeightAboveLimit
    | InputsOutputsNumAboveLimit
    | UnreachableInstructions
    | StackUnderflow
    | InvalidCodeSectionIndex

  datatype Result<T> = Ok(value: T) | Err(error: Error)

  // ----- Instruction boundaries -----

  /** Bytes taken by the instruction at `i`, its immediates included. */
  function InstrSize(code: Code, i: nat): (n: nat)
    requires i < |code|
    ensures n >= 1
  {
    if code[i] != OP_RJUMPV then 1 + ImmediateSize(code[i])
    else if i + 1 < |code| then 2 + 2 * code[i + 1] as int
    else 2
  }

  /** The offsets at which instructions begin when decoding starts at `p`. */
  ghost function Starts(code: Code, p: nat): (s: set<int>)
    ensures forall i :: i in s ==> p <= i < |code|
    decreases |code| - p
  {
    if p >= |code| then {} else {p} + Starts(code, p + InstrSize(code, p))
  }

  /** The instruction offsets of a section. */
  ghost function Instrs(code: Code): (s: set<int>)
    ensures forall i :: i in s ==> 0 <= i < |code|
  {
    Starts(code, 0)
  }

  /** The next instruction after one begins where that one ends, and nothing begins in between. */
  lemma {:induction false} StartsStep(code: Code, p: nat, i: int)
    requires i in Starts(code, p)
    ensures p <= i < |code|
    ensures i + InstrSize(code, i) < |code| ==> i + InstrSize(code, i) in Starts(code, p)
    ensures forall k :: i < k < i + InstrSize(code, i) ==> k !in Starts(code, p)
    decreases |code| - p
  {
    if i != p {
      StartsStep(code, p + InstrSize(code, p), i);
    }
  }

  /** Every byte that begins no instruction is an immediate byte of exactly the instruction before it. */
  lemma {:induction false} ImmediateOwner(code: Code, p: nat, k: int) returns (i: int)
    requires p <= k < |code|
    ensures i in Starts(code, p) && i <= k < i + InstrSize(code, i)
    decreases |code| - p
  {
    var next := p + InstrSize(code, p);
    if k < next {
      i := p;
    } else {
      i := ImmediateOwner(code, next, k);
    }
  }

  /** Decoding from an instruction start yields exactly the instruction starts from there on. */
  lemma {:induction false} StartsSuffix(code: Code, p: nat, i: int)
    requires i in Starts(code, p)
    ensures p <= i
    ensures forall k :: k in Starts(code, i) <==> k in Starts(code, p) && k >= i
    decreases |code| - p
  {
    if i != p {
      StartsSuffix(code, p + InstrSize(code, p), i);
    }
  }

  // ----- validate_instructions -----

  /** What is wrong with the instruction at `i`, by itself. */
  function InstrError(code: Code, i: nat): Error
    requires i < |code|
  {
    if !DefinedInEof(code[i]) then UndefinedInstruction
    else if code[i] == OP_RJUMPV && i + 1 < |code| && code[i + 1] == 0 then InvalidRjumpvCount
    else if i + InstrSize(code, i) > |code| then TruncatedInstruction
    else Success
  }

  /** Every instruction is defined, complete, and has a non-empty jump table if it has one. */
  ghost predicate WellFormed(code: Code) {
    forall i :: i in Instrs(code) ==> InstrError(code, i) == Success
  }

  /** `err` is the error of the first faulty instruction. */
  ghost predicate FirstError(code: Code, err: Error) {
    exists i ::
      && i in Instrs(code)
      && InstrError(code, i) == err
      && forall j :: j in Instrs(code) && j < i ==> InstrError(code, j) == Success
  }

  method ValidateInstructions(code: Code) returns (err: Error)
    requires |code| > 0
    ensures err == Success <==> WellFormed(code)
    ensures err != Success ==> FirstError(code, err)
  {
    var i := 0;
    while i < |code|
      invariant 0 <= i <= |code|
      invariant i < |code| ==> i in Instrs(code)
      invariant forall j :: j in Instrs(code) && j < i ==> InstrError(code, j) == Success
    {
      StartsStep(code, 0, i);
      ghost var begin := i;
      var op := code[i];
      if !DefinedInEof(op) {
        return UndefinedInstruction;
      }
      if op == OP_RJUMPV {
        if i + 1 >= |code| {
          assert InstrError(code, begin) == TruncatedInstruction;
          return TruncatedInstruction;
        }
        var count := code[i + 1];
        if count < 1 {
          assert InstrError(code, begin) == InvalidRjumpvCount;
          return InvalidRjumpvCount;
        }
        i := i + 1 + count as int * 2;
      } else {
        i := i + ImmediateSize(op);
      }
      if i >= |code| {
        assert InstrError(code, begin) == TruncatedInstruction;
        return TruncatedInstruction;
      }
      i := i + 1;
    }
    return Success;
  }

  // ----- validate_rjump_destinations -----

  /** Number of relative targets encoded in the instruction at `i`. */
  function TargetCount(code: Code, i: nat): nat
    requires i < |code| && i + InstrSize(code, i) <= |code|
  {
    if code[i] == OP_RJUMP || code[i] == OP_RJUMPI then 1
    else if code[i] == OP_RJUMPV then code[i + 1]
    else 0
  }

  /** The `k`-th relative target of the instruction at `i`: relative to the instruction's end. */
  function Target(code: Code, i: nat, k: nat): int
    requires i < |code| && i + InstrSize(code, i) <= |code|
    requires k < TargetCount(code, i)
  {
    if code[i] == OP_RJUMPV then i + InstrSize(code, i) + I16(code, i + 2 + 2 * k)
    else i + 3 + I16(code, i + 1)
  }

  /** Every relative jump lands on an instruction of the section. */
  ghost predicate JumpsOk(code: Code)
    requires WellFormed(code)
  {
    forall i, k :: i in Instrs(code) && 0 <= k < TargetCount(code, i) ==> Target(code, i, k) in Instrs(code)
  }

  /** The destinations collected so far: in range, and exactly those of the instructions before `i`
      and of the first `m` entries of the one at `i`. */
  ghost predicate Collected(code: Code, dests: seq<int>, i: int, m: nat)
    requires WellFormed(code)
  {
    && (forall t :: t in dests ==> 0 <= t < |code|)
    && (forall j, k :: j in Instrs(code) && (j < i || (j == i && k < m)) && 0 <= k < TargetCount(code, j)
          ==> Target(code, j, k) in dests)
    && (forall t :: t in dests ==>
          exists j, k :: j in Instrs(code) && 0 <= k < TargetCount(code, j) && Target(code, j, k) == t)
  }

  lemma CollectOne(code: Code, dests: seq<int>, i: int, m: nat)
    requires WellFormed(code) && i in Instrs(code) && m < TargetCount(code, i)
    requires Collected(code, dests, i, m)
    requires 0 <= Target(code, i, m) < |code|
    ensures Collected(code, dests + [Target(code, i, m)], i, m + 1)
  {
    var more := dests + [Target(code, i, m)];
    assert more[|dests|] == Target(code, i, m);
    forall t | t in more
      ensures 0 <= t < |code|
      ensures exists j, k :: j in Instrs(code) && 0 <= k < TargetCount(code, j) && Target(code, j, k) == t
    {
      if t !in dests {
        assert t == Target(code, i, m);
      }
    }
  }

  lemma CollectNext(code: Code, dests: seq<int>, i: int)
    requires WellFormed(code) && i in Instrs(code)
    requires Collected(code, dests, i, TargetCount(code, i))
    ensures Collected(code, dests, i + InstrSize(code, i), 0)
  {
    StartsStep(code, 0, i);
  }

  /** The lambda `check_rjump_destination`, for the `k`-th target of the instruction at `i`. */
  method CheckRjumpDestination(code: Code, dests: seq<int>, i: int, k: nat) returns (ok: bool, more: seq<int>)
    requires WellFormed(code) && i in Instrs(code) && k < TargetCount(code, i)
    requires Collected(code, dests, i, k)
    ensures ok <==> 0 <= Target(code, i, k) < |code|
    ensures ok ==> Collected(code, more, i, k + 1)
  {
    var dest := Target(code, i, k);
    ok := 0 <= dest < |code|;
    more := dests;
    if ok {
      more := dests + [dest];
      CollectOne(code, dests, i, k);
    }
  }

  /** All targets of the instruction at `i`, in table order. */
  method CollectTargets(code: Code, dests: seq<int>, i: int) returns (ok: bool, more: seq<int>)
    requires WellFormed(code) && i in Instrs(code)
    requires Collected(code, dests, i, 0)
    ensures !ok ==> !JumpsOk(code)
    ensures ok ==> Collected(code, more, i + InstrSize(code, i), 0)
  {
    more := dests;
    var k := 0;
    while k < TargetCount(code, i)
      invariant 0 <= k <= TargetCount(code, i)
      invariant Collected(code, more, i, k)
    {
      ok, more := CheckRjumpDestination(code, more, i, k);
      if !ok {
        return;
      }
      k := k + 1;
    }
    CollectNext(code, more, i);
    ok := true;
  }

  /** The last loop: no collected destination is an immediate byte. */
  method AvoidsImmediates(code: Code, dests: seq<int>, immediateMap: array<bool>) returns (ok: bool)
    requires WellFormed(code) && immediateMap.Length == |code|
    requires Collected(code, dests, |code|, 0)
    requires forall k :: 0 <= k < |code| ==> (immediateMap[k] <==> k !in Instrs(code))
    ensures ok <==> JumpsOk(code)
  {
    var d := 0;
    while d < |dests|
      invariant 0 <= d <= |dests|
      invariant forall e :: 0 <= e < d ==> dests[e] in Instrs(code)
    {
      var t := dests[d];
      assert t in dests;
      if immediateMap[t] {
        return false;
      }
      d := d + 1;
    }
    return true;
  }

  method ValidateRjumpDestinations(code: Code) returns (ok: bool)
    requires |code| > 0 && WellFormed(code)
    ensures ok <==> JumpsOk(code)
  {
    hide JumpsOk, Target, DefinedInEof;
    var dests: seq<int> := [];
    var immediateMap := new bool[|code|](_ => false);
    var i := 0;
    while i < |code|
      invariant 0 <= i <= |code|
      invariant i < |code| ==> i in Instrs(code)
      invariant Collected(code, dests, i, 0)
      invariant forall k :: 0 <= k < i ==> (immediateMap[k] <==> k !in Instrs(code))
      invariant forall k :: i <= k < |code| ==> !immediateMap[k]
    {
      ok, dests := CollectTargets(code, dests, i);
      if !ok {
        return;
      }
      StartsStep(code, 0, i);
      var next := i + InstrSize(code, i);
      forall k | i < k < next {
        immediateMap[k] := true;
      }
      i := next;
    }
    ok := AvoidsImmediates(code, dests, immediateMap);
  }
}
