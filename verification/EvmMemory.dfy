/** EVM memory and its gas (instructions.hpp, execution_state.hpp). */
module EvmMemory {
  import opened Arithmetic
  import opened Bytes
  import opened Options

  const WORD_SIZE := 32
  const PAGE_SIZE := 4096
  const MAX_BUFFER_SIZE := 0xffff_ffff

  /** The largest number of words whose square fits a signed 64-bit number; beyond it the cost computation overflows. */
  const MAX_WORDS := 3_037_000_499

  const TWO_64 := 0x1_0000_0000_0000_0000

  type Int64 = x: int | -0x8000_0000_0000_0000 <= x < 0x8000_0000_0000_0000

  /** 64-bit arithmetic, signed and unsigned. */
  function I64(x: int): Int64 {
    (x + 0x8000_0000_0000_0000) % 0x1_0000_0000_0000_0000 - 0x8000_0000_0000_0000
  }

  function U64(x: int): nat {
    x % 0x1_0000_0000_0000_0000
  }

  // ----- Cost -----

  /** Words that hold `n` bytes. */
  function Words(n: nat): (w: nat)
    ensures 32 * w - 32 < n <= 32 * w
  {
    (n + 31) / 32
  }

  /** The memory cost C of Appendix H of the Ethereum Yellow Paper. */
  function Cost(w: nat): nat {
    3 * w + w * w / 512
  }

  lemma CostMonotone(v: nat, w: nat)
    requires v <= w
    ensures Cost(v) <= Cost(w)
  {
    assert w * w == v * v + (w - v) * (w + v);
    assert (w - v) * (w + v) >= 0;
  }

  lemma SquareBound(w: nat)
    ensures w <= MAX_WORDS <==> w * w < 0x8000_0000_0000_0000
  {
    if w <= MAX_WORDS {
      Monotone(w, w, MAX_WORDS);
      Monotone(MAX_WORDS, w, MAX_WORDS);
    } else {
      Monotone(w, MAX_WORDS + 1, w);
      Monotone(MAX_WORDS + 1, MAX_WORDS + 1, w);
    }
  }

  /** `num_words` in 64-bit arithmetic. */
  function NumWords(n: nat): Int64 {
    I64(U64(n + (WORD_SIZE - 1)) / WORD_SIZE)
  }

  /** The cost as computed in 64-bit arithmetic. */
  function Cost64(w: Int64): Int64 {
    I64(I64(3 * w) + I64(w * w) / 512)
  }

  /** No 64-bit overflow for sizes of up to `MAX_WORDS` words, which include all the guards let through. */
  lemma NoOverflow(n: nat)
    requires n <= WORD_SIZE * MAX_WORDS
    ensures NumWords(n) == Words(n) <= MAX_WORDS && Cost64(NumWords(n)) == Cost(Words(n)) < 0x100_0000_0000_0000
  {
    hide Cost;
    assert NumWords(n) == Words(n);
    CostFits(Words(n));
  }

  lemma CostFits(w: nat)
    requires w <= MAX_WORDS
    ensures Cost64(w) == Cost(w) < 0x100_0000_0000_0000
  {
    hide I64;
    SquareBound(w);
    NoWrap(3 * w);
    NoWrap(w * w);
    NoWrap(3 * w + w * w / 512);
  }

  lemma NoWrap(x: nat)
    requires x < 0x8000_0000_0000_0000
    ensures I64(x) == x
  {
  }

  // ----- The memory -----

  function Zeros(n: nat): (z: seq<byte>)
    ensures |z| == n && forall i :: 0 <= i < n ==> z[i] == 0
  {
    seq(n, _ => 0)
  }

  /** Twice the capacity, or whole pages when that is not enough. */
  function NewCapacity(capacity: nat, newSize: nat): (r: nat)
    requires capacity < newSize && capacity % PAGE_SIZE == 0
    ensures newSize <= r <= 2 * newSize + PAGE_SIZE && r % PAGE_SIZE == 0
  {
    TwicePages(capacity);
    if capacity * 2 < newSize then WholePages(newSize) else capacity * 2
  }

  /** The size of the pages that hold `n` bytes. */
  function WholePages(n: nat): (r: nat)
    ensures n <= r < n + PAGE_SIZE && r % PAGE_SIZE == 0
  {
    (n + (PAGE_SIZE - 1)) / PAGE_SIZE * PAGE_SIZE
  }

  lemma TwicePages(n: nat)
    requires n % PAGE_SIZE == 0
    ensures n * 2 % PAGE_SIZE == 0
  {
  }

  /** The capacity doubles if that is enough, and is otherwise the least number of 4096-byte pages that is. */
  lemma CapacityLaw(capacity: nat, newSize: nat, pages: nat)
    requires capacity < newSize && capacity % 4096 == 0
    ensures newSize <= 2 * capacity ==> NewCapacity(capacity, newSize) == 2 * capacity
    ensures newSize > 2 * capacity && 4096 * pages >= newSize ==> NewCapacity(capacity, newSize) <= 4096 * pages
  {
    hide WholePages;
  }

  class Memory {
    var data: array<byte>
    var size: nat
    var capacity: nat

    ghost predicate Valid()
      reads this
    {
      && data.Length == capacity && capacity % PAGE_SIZE == 0 && capacity > 0
      && size <= capacity <= 2 * size + PAGE_SIZE && size % WORD_SIZE == 0 && size <= WORD_SIZE * MAX_WORDS
    }

    ghost function Contents(): seq<byte>
      reads this, data
      requires size <= data.Length
    {
      data[..size]
    }

    constructor ()
      ensures Valid() && size == 0 && capacity == 4096 && fresh(data)
    {
      capacity := PAGE_SIZE;
      data := new byte[PAGE_SIZE];
      size := 0;
    }

    /** `allocate_capacity`: the bytes already there are kept. */
    method AllocateCapacity()
      requires size <= data.Length <= capacity
      modifies this`data
      ensures fresh(data) && data.Length == capacity && data[..size] == old(data[..size])
    {
      var moved := new byte[capacity];
      for i := 0 to data.Length
        invariant data == old(data) && moved[..i] == data[..i]
      {
        moved[i] := data[i];
      }
      assert moved[..data.Length][..size] == moved[..size] && data[..data.Length][..size] == data[..size];
      data := moved;
    }

    /** `Memory::grow`: the old bytes, then zeros, within a capacity of whole pages. */
    method Grow(newSize: nat)
      requires Valid() && newSize % WORD_SIZE == 0 && size < newSize <= WORD_SIZE * MAX_WORDS
      modifies this, data
      ensures Valid() && size == newSize && (data == old(data) || fresh(data))
      ensures Contents() == old(Contents()) + Zeros(newSize - old(size))
    {
      if newSize > capacity {
        capacity := NewCapacity(capacity, newSize);
        AllocateCapacity();
      }
      ghost var was := old(Contents());
      for i := size to newSize
        invariant data.Length == capacity && newSize <= capacity <= 2 * newSize + PAGE_SIZE && capacity % PAGE_SIZE == 0
        invariant size == old(size) && (data == old(data) || fresh(data))
        invariant data[..i] == was + Zeros(i - old(size))
      {
        data[i] := 0;
        assert data[..i + 1] == data[..i] + [0];
      }
      size := newSize;
    }
  }

  // ----- The check -----

  /** The words in use after a region that ends at `end` has been accessed. */
  function Needed(w: nat, end: nat): (r: nat)
    ensures r >= w
  {
    if Words(end) > w then Words(end) else w
  }

  /** `grow_memory`. */
  method GrowMemory(gasLeft: Int64, m: Memory, newSize: nat) returns (left: Int64)
    requires m.Valid() && gasLeft >= 0 && m.size < newSize <= WORD_SIZE * MAX_WORDS
    modifies m, m.data
    ensures m.Valid() && (m.data == old(m.data) || fresh(m.data))
    ensures left == gasLeft - (Cost(Words(newSize)) - Cost(old(m.size) / 32))
    ensures if left >= 0 then
              m.size == 32 * Words(newSize) && m.Contents() == old(m.Contents()) + Zeros(m.size - old(m.size))
            else m.size == old(m.size) && m.Contents() == old(m.Contents())
  {
    hide Cost, Cost64, NumWords, I64, U64, Words;
    var newWords := NumWords(newSize);
    var currentWords := I64(m.size / WORD_SIZE);
    GrowArithmetic(m.size, newSize, gasLeft);
    var newCost, currentCost := Cost64(newWords), Cost64(currentWords);
    var cost := I64(newCost as int - currentCost as int);
    left := I64(gasLeft as int - cost as int);
    if left >= 0 {
      m.Grow(U64(I64(newWords * WORD_SIZE)));
    }
  }

  /** The arithmetic of `grow_memory` does not overflow. */
  lemma GrowArithmetic(size: nat, newSize: nat, gasLeft: Int64)
    requires size < newSize <= WORD_SIZE * MAX_WORDS && size % WORD_SIZE == 0 && gasLeft >= 0
    ensures var newWords, currentWords := NumWords(newSize), I64(size / WORD_SIZE);
            var cost := I64(Cost64(newWords) - Cost64(currentWords));
            && I64(gasLeft - cost) == gasLeft - (Cost(Words(newSize)) - Cost(size / 32))
            && U64(I64(newWords * WORD_SIZE)) == 32 * Words(newSize)
    ensures size < 32 * Words(newSize) <= WORD_SIZE * MAX_WORDS
  {
    hide Cost, Cost64, NumWords, I64;
    NoOverflow(newSize);
    NoWrap(size / 32);
    CostFits(size / 32);
    CostMonotone(size / 32, Words(newSize));
    var cost := Cost(Words(newSize)) - Cost(size / 32);
    NoWrap(cost);
    NoWrap(32 * Words(newSize));
    Inside(gasLeft - cost);
  }

  lemma Inside(x: int)
    requires -0x8000_0000_0000_0000 <= x < 0x8000_0000_0000_0000
    ensures I64(x) == x
  {
  }

  /** `check_memory` for 64-bit sizes. The sum of offset and size wraps around, so the region is known to lie inside
      memory exactly when that sum fits 64 bits, as it does at every caller. */
  method CheckRegion(gasLeft: Int64, m: Memory, offset: nat, size: nat) returns (ok: bool, left: Int64)
    requires m.Valid() && gasLeft >= 0 && size < TWO_64
    requires offset <= MAX_BUFFER_SIZE ==> U64(offset + size) <= WORD_SIZE * MAX_WORDS
    modifies m, m.data
    ensures m.Valid() && (m.data == old(m.data) || fresh(m.data))
    ensures var w, end := old(m.size) / 32, U64(offset + size);
            var cost := Cost(Needed(w, end)) - Cost(w);
            && (ok <==> offset <= MAX_BUFFER_SIZE && gasLeft >= cost)
            && left == (if offset <= MAX_BUFFER_SIZE then gasLeft - cost else gasLeft)
            && m.size == (if ok then 32 * Needed(w, end) else old(m.size))
    ensures m.Contents() == old(m.Contents()) + Zeros(m.size - old(m.size))
    ensures ok ==> (offset + size <= m.size <==> offset + size < TWO_64)
  {
    hide Cost;
    if offset > MAX_BUFFER_SIZE {
      return false, gasLeft;
    }
    var newSize := U64(offset + size);
    left := gasLeft;
    if newSize > m.size {
      left := GrowMemory(gasLeft, m, newSize);
    }
    return left >= 0, left;
  }

  /** A region as an instruction asks for it, in 256-bit numbers. */
  datatype Region = Region(offset: nat, size: nat)

  ghost predicate Addressable(r: Region) {
    r.size == 0 || (r.offset <= MAX_BUFFER_SIZE && r.size <= MAX_BUFFER_SIZE)
  }

  /** Offsets and sizes of up to 2^32 - 1 are let through. */
  lemma BufferLimit(r: Region)
    ensures Addressable(r) <==> r.size == 0 || (r.offset < 0x1_0000_0000 && r.size < 0x1_0000_0000)
  {
  }

  function WordsAfter(w: nat, r: Region): (v: nat)
    ensures v >= w
  {
    if r.size == 0 then w else Needed(w, r.offset + r.size)
  }

  /** What a check does to the words in use and the gas left. */
  ghost function Check(w: nat, gas: int, r: Region): Option<(nat, int)> {
    var v := WordsAfter(w, r);
    if Addressable(r) && gas >= Cost(v) - Cost(w) then Some((v, gas - (Cost(v) - Cost(w)))) else None
  }

  /** `check_memory` for the copy instructions. */
  method CheckMemory(gasLeft: Int64, m: Memory, r: Region) returns (ok: bool, left: Int64)
    requires m.Valid() && gasLeft >= 0
    modifies m, m.data
    ensures m.Valid() && (m.data == old(m.data) || fresh(m.data))
    ensures var c := Check(old(m.size) / 32, gasLeft, r);
            if c.Some? then ok && m.size == 32 * c.value.0 && left == c.value.1 else !ok && m.size == old(m.size)
    ensures m.Contents() == old(m.Contents()) + Zeros(m.size - old(m.size))
    ensures ok && r.size > 0 ==> r.offset + r.size <= m.size
  {
    hide Cost, Needed;
    if r.size == 0 {
      return true, gasLeft;
    }
    if r.size > MAX_BUFFER_SIZE {
      return false, gasLeft;
    }
    ok, left := CheckRegion(gasLeft, m, r.offset, r.size);
  }

  // ----- Whole runs -----

  /** The words in use after a sequence of regions. */
  function WordsUsed(w: nat, rs: seq<Region>): (v: nat)
    ensures v >= w
  {
    if rs == [] then w else WordsAfter(WordsUsed(w, rs[..|rs| - 1]), rs[|rs| - 1])
  }

  /** A sequence of checks, until one fails. */
  ghost function Run(w: nat, gas: int, rs: seq<Region>): Option<(nat, int)> {
    if rs == [] then Some((w, gas))
    else
      var before := Run(w, gas, rs[..|rs| - 1]);
      if before.None? then None else Check(before.value.0, before.value.1, rs[|rs| - 1])
  }

  /** A run succeeds exactly when every region is addressable and the gas covers C(final) - C(initial), which is then
      what it charges. */
  lemma {:induction false} RunTelescopes(w: nat, gas: nat, rs: seq<Region>)
    ensures var v := WordsUsed(w, rs);
            Run(w, gas, rs) == if (forall r :: r in rs ==> Addressable(r)) && gas >= Cost(v) - Cost(w)
                               then Some((v, gas - (Cost(v) - Cost(w)))) else None
  {
    hide Cost, WordsAfter, Addressable;
    if rs != [] {
      var before, last := rs[..|rs| - 1], rs[|rs| - 1];
      RunTelescopes(w, gas, before);
      assert rs == before + [last];
      CostMonotone(WordsUsed(w, before), WordsUsed(w, rs));
    }
  }

  /** The words used are the least number that covers the start and every region: neither the order of the accesses nor
      their repetition matters, for what is charged or for what succeeds. */
  lemma {:induction false} LeastCover(w: nat, rs: seq<Region>)
    ensures forall r :: r in rs && r.size > 0 ==> r.offset + r.size <= 32 * WordsUsed(w, rs)
    ensures WordsUsed(w, rs) == w || exists r ::
              r in rs && r.size > 0 && 32 * (WordsUsed(w, rs) - 1) < r.offset + r.size
  {
    if rs != [] {
      var before, last := rs[..|rs| - 1], rs[|rs| - 1];
      LeastCover(w, before);
      assert rs == before + [last];
    }
  }

  lemma OrderDoesNotMatter(w: nat, rs: seq<Region>, ss: seq<Region>)
    requires forall r :: r in rs <==> r in ss
    ensures WordsUsed(w, rs) == WordsUsed(w, ss)
  {
    LeastCover(w, rs);
    LeastCover(w, ss);
  }
}
