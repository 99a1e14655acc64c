/** Legacy bytecode: instruction positions, PUSH operands and jump destinations (baseline.cpp
    `analyze_jumpdests`, `pad_code`; instructions.hpp `push`). */
module LegacyCode {
  import opened Bytes
  import opened Opcodes

  /** Bytes of immediate data after the opcode. */
  function PushSize(op: byte): (n: nat)
    ensures n <= 32
  {
    if IsPush(op) then op - OP_PUSH1 + 1 else 0
  }

  /** Where the instruction after the one at `p` begins. */
  function NextPos(code: Code, p: nat): (q: nat)
    requires p < |code|
    ensures p < q <= p + 33
  {
    p + 1 + PushSize(code[p])
  }

  // ----- Jump destinations -----

  /** The valid jump destinations from `p` on, as section 9.4.3 of the Ethereum Yellow Paper defines them. */
  ghost function JumpDests(code: Code, p: nat): (d: set<nat>)
    ensures forall x :: x in d ==> p <= x < |code|
    decreases |code| - p
  {
    if p >= |code| then {}
    else if code[p] == OP_JUMPDEST then {p} + JumpDests(code, NextPos(code, p))
    else JumpDests(code, NextPos(code, p))
  }

  /** The bitmap of the baseline interpreter marks exactly the valid jump destinations. */
  method AnalyzeJumpdests(code: Code) returns (jumpdests: array<bool>)
    ensures jumpdests.Length == |code|
    ensures forall i :: 0 <= i < |code| ==> (jumpdests[i] <==> i in JumpDests(code, 0))
  {
    jumpdests := new bool[|code|](_ => false);
    var i := 0;
    while i < |code|
      invariant 0 <= i
      invariant forall k :: 0 <= k < |code| && k < i ==> (jumpdests[k] <==> k in JumpDests(code, 0))
      invariant forall k :: i <= k < |code| ==> !jumpdests[k]
      invariant forall k :: k >= i ==> (k in JumpDests(code, 0) <==> k in JumpDests(code, i))
    {
      var op := code[i];
      if AsInt8(op) >= OP_PUSH1 as int {
        i := i + op as int - (OP_PUSH1 as int - 1);
      } else if op == OP_JUMPDEST {
        jumpdests[i] := true;
      }
      i := i + 1;
    }
  }

  // ----- PUSH operands -----

  /** `pad_code`: the code is followed by STOP (zero) bytes. */
  function Padded(code: Code, i: nat): byte {
    if i < |code| then code[i] else OP_STOP
  }

  /** The `n` padded bytes at `p` as a big-endian number. */
  function PaddedNumber(code: Code, p: nat, n: nat): nat {
    if n == 0 then 0 else 256 * PaddedNumber(code, p, n - 1) + Padded(code, p + n - 1) as nat
  }

  /** The operand of the PUSH at `p`. */
  function PushValue(code: Code, p: nat): nat
    requires p < |code|
  {
    PaddedNumber(code, p + 1, PushSize(code[p]))
  }

  lemma {:induction false} NumberSplit(code: Code, p: nat, m: nat, n: nat)
    ensures PaddedNumber(code, p, m + n) == PaddedNumber(code, p, m) * Pow256(n) + PaddedNumber(code, p + m, n)
  {
    if n > 0 {
      NumberSplit(code, p, m, n - 1);
      Distribute(PaddedNumber(code, p, m), Pow256(n - 1), PaddedNumber(code, p + m, n - 1),
                 Padded(code, p + m + n - 1) as nat);
    }
  }

  lemma Distribute(x: nat, w: nat, y: nat, b: nat)
    ensures 256 * (x * w + y) + b == x * (256 * w) + (256 * y + b)
  {
    assert x * (256 * w) == 256 * (x * w);
  }

  /** The first `i` of `n` bytes, shifted into place. */
  function Shifted(code: Code, p: nat, i: nat, n: nat): nat
    requires i <= n
  {
    PaddedNumber(code, p, i) * Pow256(n - i)
  }

  lemma ShiftInByte(code: Code, p: nat, i: nat, n: nat)
    requires i < n
    ensures Shifted(code, p, i + 1, n) == Shifted(code, p, i, n) + Padded(code, p + i) as nat * Pow256(n - 1 - i)
  {
    ShiftIn(PaddedNumber(code, p, i), Padded(code, p + i) as nat, Pow256(n - 1 - i));
  }

  lemma ShiftIn(x: nat, b: nat, w: nat)
    ensures (256 * x + b) * w == x * (256 * w) + b * w
  {
    assert x * (256 * w) == (256 * x) * w;
  }

  /** `push<Len>`: the leading partial word, then full 64-bit words. */
  function WordsNumber(code: Code, p: nat, acc: nat, words: nat): nat
    decreases words
  {
    if words == 0 then acc
    else WordsNumber(code, p + 8, acc * Pow256(8) + PaddedNumber(code, p, 8), words - 1)
  }

  lemma {:induction false} WordsSplit(code: Code, p: nat, m: nat, words: nat)
    ensures WordsNumber(code, p + m, PaddedNumber(code, p, m), words) == PaddedNumber(code, p, m + 8 * words)
    decreases words
  {
    hide PaddedNumber, Pow256;
    if words > 0 {
      NumberSplit(code, p, m, 8);
      WordsSplit(code, p, m + 8, words - 1);
    }
  }

  /** Loading a PUSH operand word by word gives the big-endian number of its padded bytes. */
  lemma PushByWords(code: Code, p: nat)
    requires p < |code| && IsPush(code[p])
    ensures var n := PushSize(code[p]);
            WordsNumber(code, p + 1 + n % 8, PaddedNumber(code, p + 1, n % 8), n / 8) == PushValue(code, p)
  {
    var n := PushSize(code[p]);
    WordsSplit(code, p + 1, n % 8, n / 8);
  }

  /** Bytes missing at the end of the code count as zeros. */
  lemma {:induction false} TruncatedPush(code: Code, p: nat, n: nat)
    requires p <= |code|
    ensures p + n >= |code| ==> PaddedNumber(code, p, n) == Shifted(code, p, |code| - p, n)
    ensures PaddedNumber(code, p, n) == Shifted(code, p, n, n)
  {
    if p + n >= |code| {
      var m := |code| - p;
      NumberSplit(code, p, m, n - m);
      ZeroTail(code, |code|, n - m);
    }
  }

  lemma {:induction false} ZeroTail(code: Code, p: nat, n: nat)
    requires p >= |code|
    ensures PaddedNumber(code, p, n) == 0
  {
    if n > 0 {
      ZeroTail(code, p, n - 1);
    }
  }
}
