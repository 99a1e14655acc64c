/** The 256-bit difficulty check of ethash (ethash.cpp). */
module Difficulty {
  import opened Arithmetic
  import opened Bytes

  const HALF := 0x1_0000_0000
  const BASE := 0x1_0000_0000_0000_0000

  type Word = x: int | 0 <= x < 0x1_0000_0000_0000_0000

  /** Unsigned 64-bit arithmetic wraps around. */
  function Wrap(x: int): Word {
    x % BASE
  }

  // ----- 64 x 64 -> 128 -----

  datatype Wide = Wide(lo: Word, hi: Word)

  /** x * y for 32-bit halves stays within 64 bits. */
  lemma HalfProduct(a: nat, b: nat)
    requires a < HALF && b < HALF
    ensures 0 <= a * b <= (HALF - 1) * (HALF - 1)
  {
    assert a * b <= a * (HALF - 1) by { Monotone(a, b, HALF - 1); }
  }

  lemma Halves(x: nat, y: nat, xh: nat, xl: nat, yh: nat, yl: nat)
    requires x == xh * HALF + xl && y == yh * HALF + yl
    ensures x * y == xh * yh * BASE + (xh * yl + xl * yh) * HALF + xl * yl
  {
    Square(xh, xl, yh, yl, HALF);
    assert xh * yh * BASE == xh * yh * (HALF * HALF);
  }

  lemma Square(a: nat, b: nat, c: nat, d: nat, h: nat)
    ensures (a * h + b) * (c * h + d) == a * c * (h * h) + (a * d + b * c) * h + b * d
  {
    calc {
      (a * h + b) * (c * h + d);
      (a * h) * (c * h) + (a * h) * d + b * (c * h) + b * d;
      { assert (a * h) * (c * h) == a * c * (h * h); assert (a * h) * d == a * d * h; assert b * (c * h) == b * c * h; }
      a * c * (h * h) + a * d * h + b * c * h + b * d;
      { assert (a * d + b * c) * h == a * d * h + b * c * h; }
      a * c * (h * h) + (a * d + b * c) * h + b * d;
    }
  }

  /** `(u << 32) | (t & 0xffffffff)`: the low half of `u` above the low half of `t`. */
  function Join(u: Word, t: Word): Word {
    u % HALF * HALF + t % HALF
  }

  /** The portable `umul`. */
  function Umul(x: Word, y: Word): (r: Wide) {
    var xl, xh, yl, yh := x % HALF, x / HALF, y % HALF, y / HALF;
    AddProducts(xl * yl, xh * yl, xl * yh, xh * yh)
  }

  /** The additions of `umul`, on the four products of halves. */
  function AddProducts(p0: int, p1: int, p2: int, p3: int): (r: Wide) {
    var t0, t1, t2, t3 := Wrap(p0), Wrap(p1), Wrap(p2), Wrap(p3);
    var u1 := Wrap(t1 + t0 / HALF);
    var u2 := Wrap(t2 + u1 % HALF);
    Wide(Join(u2, t0), Wrap(t3 + u2 / HALF + u1 / HALF))
  }

  /** `umul` is exact: no carry is lost. */
  lemma UmulExact(x: Word, y: Word)
    ensures Umul(x, y).lo + Umul(x, y).hi * BASE == x * y
  {
    hide AddProducts;
    var xl, xh, yl, yh := x % HALF, x / HALF, y % HALF, y / HALF;
    HalfProduct(xl, yl);
    HalfProduct(xh, yl);
    HalfProduct(xl, yh);
    HalfProduct(xh, yh);
    Halves(x, y, xh, xl, yh, yl);
    Carries(xl * yl, xh * yl, xl * yh, xh * yh);
  }

  lemma Carries(t0: nat, t1: nat, t2: nat, t3: nat)
    requires t0 <= (HALF - 1) * (HALF - 1) && t1 <= (HALF - 1) * (HALF - 1)
    requires t2 <= (HALF - 1) * (HALF - 1) && t3 <= (HALF - 1) * (HALF - 1)
    ensures var r := AddProducts(t0, t1, t2, t3); r.lo + r.hi * BASE == t3 * BASE + (t1 + t2) * HALF + t0
  {
    hide Wrap;
    NoWrap(t0);
    NoWrap(t1);
    NoWrap(t2);
    NoWrap(t3);
    var u1 := t1 + t0 / HALF;
    NoWrap(u1);
    var u2 := t2 + u1 % HALF;
    NoWrap(u2);
    NoWrap(t3 + u2 / HALF + u1 / HALF);
    AddUp(t0, t1, t2, t3, u1, u2);
  }

  lemma NoWrap(x: int)
    requires 0 <= x < BASE
    ensures Wrap(x) == x
  {
  }

  lemma AddUp(t0: nat, t1: nat, t2: nat, t3: nat, u1: nat, u2: nat)
    requires u1 == t1 + t0 / HALF && u2 == t2 + u1 % HALF
    ensures u2 % HALF * HALF + t0 % HALF + (t3 + u2 / HALF + u1 / HALF) * BASE == t3 * BASE + (t1 + t2) * HALF + t0
  {
    assert t0 == t0 / HALF * HALF + t0 % HALF;
    assert u1 == u1 / HALF * HALF + u1 % HALF;
    assert u2 == u2 / HALF * HALF + u2 % HALF;
  }

  // ----- Numbers as words and as bytes -----

  function Pow(n: nat): (r: nat)
    ensures r > 0
  {
    if n == 0 then 1 else BASE * Pow(n - 1)
  }

  /** The number held by little-endian words. */
  function Value(ws: seq<Word>): nat {
    if ws == [] then 0 else Value(ws[..|ws| - 1]) + ws[|ws| - 1] * Pow(|ws| - 1)
  }

  /** The number held by big-endian bytes. */
  function Number(bytes: seq<byte>): nat {
    if bytes == [] then 0 else 256 * Number(bytes[..|bytes| - 1]) + bytes[|bytes| - 1]
  }

  lemma {:induction false} NumberConcat(a: seq<byte>, b: seq<byte>)
    ensures Number(a + b) == Number(a) * Pow256(|b|) + Number(b)
    decreases |b|
  {
    if b == [] {
      assert a + b == a;
    } else {
      var b' := b[..|b| - 1];
      NumberConcat(a, b');
      assert (a + b)[..|a + b| - 1] == a + b';
      assert Number(a) * Pow256(|b|) == 256 * (Number(a) * Pow256(|b'|));
    }
  }

  lemma {:induction false} NumberBound(b: seq<byte>)
    ensures Number(b) < Pow256(|b|)
  {
    if b != [] {
      NumberBound(b[..|b| - 1]);
    }
  }

  lemma {:induction false} EightBytes(n: nat)
    ensures Pow256(8 * n) == Pow(n)
  {
    if n > 0 {
      EightBytes(n - 1);
      assert Pow256(8 * n) == 256 * 256 * 256 * 256 * 256 * 256 * 256 * 256 * Pow256(8 * n - 8) by {
        Step(8 * n - 2);
        Step(8 * n - 4);
        Step(8 * n - 6);
        Step(8 * n - 8);
      }
    }
  }

  lemma Step(n: nat)
    ensures Pow256(n + 2) == 256 * 256 * Pow256(n)
  {
  }

  lemma PowOne()
    ensures Pow(1) == BASE && Pow256(8) == BASE
  {
    EightBytes(1);
  }

  /** `be::uint64`: eight bytes, the most significant first. */
  function ReadWord(bytes: seq<byte>): (w: Word)
    requires |bytes| == 8
  {
    NumberBound(bytes);
    PowOne();
    Number(bytes)
  }

  lemma Append(ws: seq<Word>, w: Word)
    ensures Value(ws + [w]) == Value(ws) + w * Pow(|ws|)
  {
    assert (ws + [w])[..|ws|] == ws;
  }

  lemma NextWord(ws: seq<Word>, chunk: seq<byte>, rest: seq<byte>)
    requires |chunk| == 8 && |rest| == 8 * |ws| && Value(ws) == Number(rest)
    ensures Value(ws + [ReadWord(chunk)]) == Number(chunk + rest)
  {
    hide Value, Pow, Pow256, Number;
    NumberConcat(chunk, rest);
    EightBytes(|ws|);
    Append(ws, ReadWord(chunk));
    WordIs(chunk);
  }

  lemma WordIs(chunk: seq<byte>)
    requires |chunk| == 8
    ensures ReadWord(chunk) == Number(chunk)
  {
  }

  /** The bytes of the word at index `i`. */
  function Chunk(hash: seq<byte>, i: nat): (c: seq<byte>)
    requires |hash| == 32 && i < 4
    ensures |c| == 8
  {
    hash[24 - 8 * i..32 - 8 * i]
  }

  /** The number of the last `i` words. */
  ghost function Low(hash: seq<byte>, i: nat): nat
    requires |hash| == 32 && i <= 4
  {
    Number(hash[32 - 8 * i..])
  }

  lemma LowStep(hash: seq<byte>, ws: seq<Word>)
    requires |hash| == 32 && |ws| < 4 && Value(ws) == Low(hash, |ws|)
    ensures Value(ws + [ReadWord(Chunk(hash, |ws|))]) == Low(hash, |ws| + 1)
  {
    hide Value, Number, ReadWord;
    var i := |ws|;
    NextWord(ws, Chunk(hash, i), hash[32 - 8 * i..]);
    assert hash[32 - 8 * (i + 1)..] == Chunk(hash, i) + hash[32 - 8 * i..];
  }

  lemma LowEnds(hash: seq<byte>)
    requires |hash| == 32
    ensures Low(hash, 0) == 0 && Low(hash, 4) == Number(hash)
  {
    assert hash[32..] == [] && hash[0..] == hash;
  }

  /** The little-endian words of a 256-bit hash. */
  method Words(hash: seq<byte>) returns (w: array<Word>)
    requires |hash| == 32
    ensures fresh(w) && w.Length == 4 && Value(w[..]) == Number(hash)
  {
    hide Value, Number, ReadWord, Low, Chunk;
    w := new Word[4];
    ValueNil();
    LowEnds(hash);
    assert w[..0] == [];
    for i := 0 to 4
      invariant Value(w[..i]) == Low(hash, i)
    {
      LowStep(hash, w[..i]);
      w[i] := ReadWord(Chunk(hash, i));
      assert w[..i + 1] == w[..i] + [w[i]];
    }
    assert w[..4] == w[..];
  }

  // ----- The product -----

  lemma PowAdd(m: nat, n: nat)
    ensures Pow(m + n) == Pow(m) * Pow(n)
  {
    if m > 0 {
      PowAdd(m - 1, n);
    }
  }

  /** Replacing one word. */
  lemma {:induction false} Replace(ws: seq<Word>, i: nat, w: Word)
    requires i < |ws|
    ensures Value(ws[i := w]) == Value(ws) + (w - ws[i]) * Pow(i)
    decreases |ws|
  {
    var n := |ws| - 1;
    if i < n {
      Replace(ws[..n], i, w);
      assert ws[i := w][..n] == ws[..n][i := w];
    } else {
      assert ws[i := w][..n] == ws[..n];
    }
  }

  /** One column: what stays and what is carried add up, and the carry fits a word. */
  lemma Column(a: Word, x: Word, y: Word, k: Word)
    ensures var r := Umul(x, y);
            var t := Wrap(a + r.lo);
            var s: Word := Wrap(t + k);
            var k' := r.hi + (if t < r.lo then 1 else 0) + (if s < k then 1 else 0);
            k' < BASE && s + k' * BASE == a + x * y + k
  {
    hide Umul, Wrap;
    UmulExact(x, y);
    ProductBound(x, y);
    var r := Umul(x, y);
    var t: Word := Wrap(a + r.lo);
    AddWords(a, r.lo);
    AddWords(t, k);
    CarryFits(Wrap(t + k), r.hi + (if t < r.lo then 1 else 0) + (if Wrap(t + k) < k then 1 else 0), a, x * y, k);
  }

  lemma ProductBound(x: Word, y: Word)
    ensures 0 <= x * y <= (BASE - 1) * (BASE - 1)
  {
    Monotone(x, y, BASE - 1);
    Monotone(BASE - 1, x, BASE - 1);
  }

  /** An addition that wraps leaves a sum below its second operand, and only such an addition does. */
  lemma AddWords(a: Word, b: Word)
    ensures Wrap(a + b) + (if Wrap(a + b) < b then BASE else 0) == a + b
  {
  }

  lemma CarryFits(s: Word, k': nat, a: Word, xy: nat, k: Word)
    requires s + k' * BASE == a + xy + k && xy <= (BASE - 1) * (BASE - 1)
    ensures k' < BASE
  {
  }

  lemma Scale(a: int, s: int, k: int, k': int, xy: int, w: int)
    requires s + k' * BASE == a + xy + k
    ensures (s - a) * w + k' * (BASE * w) == xy * w + k * w
  {
    assert (s - a + k' * BASE) * w == (xy + k) * w;
    assert k' * (BASE * w) == k' * BASE * w;
  }

  /** A round has reached word `i`: the words `ws` and the carry hold the product so far. */
  ghost predicate Partial(ws: seq<Word>, before: nat, h: seq<Word>, d: Word, i: nat, j: nat, k: Word)
    requires i <= |h|
  {
    Value(ws) + k * Pow(j + i) == before + Value(h[..i]) * d * Pow(j)
  }

  lemma RoundStep(ws: seq<Word>, before: nat, h: seq<Word>, d: Word, i: nat, j: nat, k: Word, s: Word, k': Word)
    requires i < |h| && j + i < |ws| && Partial(ws, before, h, d, i, j, k)
    requires s + k' * BASE == ws[j + i] + h[i] * d + k
    ensures Partial(ws[j + i := s], before, h, d, i + 1, j, k')
  {
    hide Value, Pow;
    var w, v := Pow(j + i), Value(h[..i]);
    Replace(ws, j + i, s);
    PowNext(j + i);
    Scale(ws[j + i], s, k, k', h[i] * d, w);
    assert h[..i + 1] == h[..i] + [h[i]];
    Append(h[..i], h[i]);
    PowAdd(j, i);
    Spread(v, h[i], Pow(i), d, Pow(j));
  }

  lemma FirstStep(ws: seq<Word>, h: seq<Word>, d: Word, i: nat, k: Word, s: Word, k': Word)
    requires i < |h| && |ws| == i && Partial(ws, 0, h, d, i, 0, k)
    requires s + k' * BASE == h[i] * d + k
    ensures Partial(ws + [s], 0, h, d, i + 1, 0, k')
  {
    hide Value, Pow;
    Append(ws, 0);
    RoundStep(ws + [0], 0, h, d, i, 0, k, s, k');
    assert (ws + [0])[i := s] == ws + [s];
  }

  lemma Start(ws: seq<Word>, h: seq<Word>, d: Word, j: nat)
    ensures Partial(ws, Value(ws), h, d, 0, j, 0)
  {
    assert h[..0] == [];
  }

  /** The last carry completes the round. */
  lemma Complete(ws: seq<Word>, before: nat, h: seq<Word>, d: Word, j: nat, k: Word)
    requires |ws| == j + |h| && Partial(ws, before, h, d, |h|, j, k)
    ensures Value(ws + [k]) == before + Value(h) * d * Pow(j)
  {
    hide Value, Pow;
    Append(ws, k);
    assert h[..|h|] == h;
  }

  lemma PowNext(n: nat)
    ensures Pow(n + 1) == BASE * Pow(n)
  {
  }

  lemma Spread(v: nat, x: nat, p: nat, d: nat, q: nat)
    ensures (v + x * p) * d * q == v * d * q + x * d * (q * p)
  {
    assert (v + x * p) * d == v * d + x * p * d;
    assert (v * d + x * p * d) * q == v * d * q + x * p * d * q;
    assert x * p * d * q == x * d * (q * p) by {
      assert x * p * d == x * d * p;
      assert x * d * p * q == x * d * (p * q);
    }
  }

  /** The first round: p[..5] = h * d. */
  method FirstRound(h: array<Word>, d: Word, p: array<Word>)
    requires h.Length == 4 && p.Length == 8 && p != h
    modifies p
    ensures Value(p[..5]) == Value(h[..]) * d
  {
    hide Value, Pow, Umul, Wrap, Partial;
    var k: Word := 0;
    Start([], h[..], d, 0);
    ValueNil();
    for i := 0 to 4
      invariant Partial(p[..i], 0, h[..], d, i, 0, k)
    {
      var r := Umul(h[i], d);
      Column(0, h[i], d, k);
      NoWrap(r.lo);
      FirstStep(p[..i], h[..], d, i, k, Wrap(r.lo + k), r.hi + (if Wrap(r.lo + k) < k then 1 else 0));
      p[i] := Wrap(r.lo + k);
      k := r.hi + (if p[i] < k then 1 else 0);
      assert p[..i + 1] == p[..i] + [p[i]];
    }
    Complete(p[..4], 0, h[..], d, 0, k);
    PowZero();
    p[4] := k;
    assert p[..5] == p[..4] + [k];
  }

  lemma ValueNil()
    ensures Value([]) == 0 && Number([]) == 0
  {
  }

  lemma PowZero()
    ensures Pow(0) == 1
  {
  }

  /** Round j: h * d * 2^(64 j) is added to p[..j + 4]. */
  method Round(h: array<Word>, d: Word, j: nat, p: array<Word>)
    requires h.Length == 4 && p.Length == 8 && p != h && 1 <= j < 4
    modifies p
    ensures Value(p[..j + 5]) == Value(old(p[..j + 4])) + Value(h[..]) * d * Pow(j)
  {
    hide Value, Pow, Umul, Wrap, Partial;
    var k: Word := 0;
    ghost var before := Value(p[..j + 4]);
    if d != 0 {
      Start(p[..j + 4], h[..], d, j);
      for i := 0 to 4
        invariant Partial(p[..j + 4], before, h[..], d, i, j, k)
      {
        var r := Umul(h[i], d);
        var t := Wrap(p[j + i] + r.lo);
        Column(p[j + i], h[i], d, k);
        var s: Word := Wrap(t + k);
        RoundStep(p[..j + 4], before, h[..], d, i, j, k, s,
                  r.hi + (if t < r.lo then 1 else 0) + (if s < k then 1 else 0));
        ghost var was: seq<Word> := p[..j + 4];
        p[j + i] := s;
        k := r.hi + (if t < r.lo then 1 else 0) + (if p[j + i] < k then 1 else 0);
        assert p[..j + 4] == was[j + i := s];
      }
      Complete(p[..j + 4], before, h[..], d, j, k);
    } else {
      Append(p[..j + 4], 0);
    }
    p[j + 4] := k;
    assert p[..j + 5] == p[..j + 4] + [k];
  }

  // ----- The comparison -----

  lemma {:induction false} Below(ws: seq<Word>)
    ensures Value(ws) < Pow(|ws|)
  {
    if ws != [] {
      var n := |ws| - 1;
      Below(ws[..n]);
      Monotone(Pow(n), ws[n] as int + 1, BASE);
      assert (ws[n] as int + 1) * Pow(n) == ws[n] * Pow(n) + Pow(n);
    }
  }

  lemma {:induction false} Split(a: seq<Word>, b: seq<Word>)
    ensures Value(a + b) == Value(a) + Value(b) * Pow(|a|)
    decreases |b|
  {
    if b == [] {
      assert a + b == a;
    } else {
      var n := |b| - 1;
      Split(a, b[..n]);
      assert (a + b)[..|a + b| - 1] == a + b[..n];
      PowAdd(|a|, n);
      Regroup(Value(b[..n]), b[n], Pow(n), Pow(|a|));
    }
  }

  lemma Regroup(v: nat, x: nat, p: nat, q: nat)
    ensures (v + x * p) * q == v * q + x * (q * p)
  {
    assert x * p * q == x * (q * p);
  }

  /** A number is zero, or one, only as its words say. */
  lemma {:induction false} Small(ws: seq<Word>)
    requires ws != []
    ensures Value(ws) == 0 <==> forall i :: 0 <= i < |ws| ==> ws[i] == 0
    ensures Value(ws) == 1 <==> ws[0] == 1 && forall i :: 1 <= i < |ws| ==> ws[i] == 0
    decreases |ws|
  {
    var n := |ws| - 1;
    if n > 0 {
      Small(ws[..n]);
      PowNext(n - 1);
      if ws[n] > 0 {
        Monotone(Pow(n), 1, ws[n]);
      }
    } else {
      assert ws[..0] == [];
    }
  }

  /** A number is at most 2^256 when its high half is zero, or is one above a zero low half. */
  lemma AtMost(low: seq<Word>, high: seq<Word>)
    requires |low| == 4
    ensures Value(low + high) <= Pow(4) <==> Value(high) == 0 || (Value(high) == 1 && Value(low) == 0)
  {
    hide Value, Pow;
    Split(low, high);
    Below(low);
    if Value(high) > 1 {
      Monotone(Pow(4), 2, Value(high));
    }
  }

  const LIMIT := 0x1_0000_0000_0000_0000_0000_0000_0000_0000_0000_0000_0000_0000_0000_0000_0000_0000

  lemma Limit()
    ensures Pow(4) == LIMIT
  {
    PowNext(0);
    PowNext(1);
    PowNext(2);
    PowNext(3);
  }

  lemma {:induction false} Multiply(h: nat, ds: seq<Word>, j: nat)
    requires j < |ds|
    ensures h * Value(ds[..j + 1]) == h * Value(ds[..j]) + h * ds[j] * Pow(j)
  {
    hide Value, Pow;
    assert ds[..j + 1] == ds[..j] + [ds[j]];
    Append(ds[..j], ds[j]);
    assert h * (ds[j] * Pow(j)) == h * ds[j] * Pow(j);
  }

  /** `check_against_difficulty`: hash * difficulty <= 2^256, for all 32-byte numbers. */
  method CheckAgainstDifficulty(hash: seq<byte>, difficulty: seq<byte>) returns (ok: bool)
    requires |hash| == 32 && |difficulty| == 32
    ensures ok <==> Number(hash) * Number(difficulty) <= LIMIT
  {
    hide Value, Pow, Number;
    var d := Words(difficulty);
    var h := Words(hash);
    var p := new Word[8];
    FirstRound(h, d[0], p);
    Multiply(Value(h[..]), d[..], 0);
    ValueNil();
    PowZero();
    assert d[..][..0] == [];
    for j := 1 to 4
      invariant Value(p[..j + 4]) == Value(h[..]) * Value(d[..][..j])
      invariant Value(d[..]) == Number(difficulty) && Value(h[..]) == Number(hash)
    {
      Multiply(Value(h[..]), d[..], j);
      Round(h, d[j], j, p);
    }
    assert p[..8] == p[..4] + p[4..] && d[..][..4] == d[..];
    Limit();
    AtMost(p[..4], p[4..]);
    Small(p[4..]);
    Small(p[..4]);
    var highZero := p[7] == 0 && p[6] == 0 && p[5] == 0 && p[4] == 0;
    if highZero {
      return true;
    }
    var lowZero := p[3] == 0 && p[2] == 0 && p[1] == 0 && p[0] == 0;
    var highOne := p[7] == 0 && p[6] == 0 && p[5] == 0 && p[4] == 1;
    return lowZero && highOne;
  }
}
