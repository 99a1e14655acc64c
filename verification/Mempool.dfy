/** Transactions and the pool that holds them (core0.hpp, mempool.hpp). */
module Mempool {

  type Hash = string

  /** A transaction. Addresses are 20 bytes, which compare like the numbers they write. */
  datatype Tx = Tx(from: nat, nonce: nat, timestamp: int, data: string)

  /** `Tx::Index::operator<`. */
  predicate IndexLess(a: Tx, b: Tx) {
    (a.from == b.from && a.nonce < b.nonce) || a.from < b.from
  }

  /** `Tx::operator<`. */
  predicate TxLess(a: Tx, b: Tx) {
    (a.timestamp == b.timestamp && IndexLess(a, b)) || a.timestamp < b.timestamp
  }

  /** The order identifies transactions of one sender with one nonce and one timestamp, and no others. */
  lemma TxOrder(a: Tx, b: Tx, c: Tx)
    ensures !TxLess(a, b) && !TxLess(b, a) <==> a.timestamp == b.timestamp && a.from == b.from && a.nonce == b.nonce
    ensures !(TxLess(a, b) && TxLess(b, a))
    ensures TxLess(a, b) && TxLess(b, c) ==> TxLess(a, c)
  {
  }

  /** `Tx::hash` for a hash function of sender and nonce. */
  function HashOf(hash: (nat, nat) -> Hash, t: Tx): Hash {
    hash(t.from, t.nonce)
  }

  /** With a hash function without collisions, the hash identifies sender and nonce, and nothing else of a
      transaction. */
  lemma HashIdentifies(hash: (nat, nat) -> Hash, a: Tx, b: Tx)
    requires forall f, n, f', n' :: hash(f, n) == hash(f', n') ==> f == f' && n == n'
    ensures HashOf(hash, a) == HashOf(hash, b) <==> a.from == b.from && a.nonce == b.nonce
    ensures HashOf(hash, a) == hash(a.from, a.nonce)
  {
  }

  /** The transactions in the pool in `TxLess` order, and the hashes of all transactions ever accepted. */
  datatype Pool = Pool(txs: seq<Tx>, hs: set<Hash>)

  ghost predicate Sorted(txs: seq<Tx>) {
    forall i, j :: 0 <= i < j < |txs| ==> TxLess(txs[i], txs[j])
  }

  /** No two transactions in the pool have the same hash, and the history knows them all. */
  ghost predicate Valid(hash: (nat, nat) -> Hash, p: Pool) {
    && Sorted(p.txs)
    && (forall i :: 0 <= i < |p.txs| ==> HashOf(hash, p.txs[i]) in p.hs)
    && (forall i, j :: 0 <= i < j < |p.txs| ==> HashOf(hash, p.txs[i]) != HashOf(hash, p.txs[j]))
  }

  // ----- The two-index container -----

  /** An index refuses what it already has an equivalent of. */
  predicate Clashes(hash: (nat, nat) -> Hash, txs: seq<Tx>, t: Tx) {
    exists i :: 0 <= i < |txs| &&
      ((!TxLess(txs[i], t) && !TxLess(t, txs[i])) || HashOf(hash, txs[i]) == HashOf(hash, t))
  }

  /** Where `t` goes. */
  function Position(txs: seq<Tx>, t: Tx): (r: nat)
    ensures r <= |txs|
    ensures forall i :: 0 <= i < r ==> TxLess(txs[i], t)
    ensures r < |txs| ==> !TxLess(txs[r], t)
  {
    if txs == [] || !TxLess(txs[0], t) then 0 else 1 + Position(txs[1..], t)
  }

  function Inserted(txs: seq<Tx>, t: Tx): seq<Tx> {
    var i := Position(txs, t);
    txs[..i] + [t] + txs[i..]
  }

  lemma InsertedSorted(hash: (nat, nat) -> Hash, txs: seq<Tx>, t: Tx)
    requires Sorted(txs) && !Clashes(hash, txs, t)
    ensures Sorted(Inserted(txs, t))
  {
    var k := Position(txs, t);
    forall i | k <= i < |txs|
      ensures TxLess(t, txs[i])
    {
      TxOrder(t, txs[k], txs[i]);
    }
  }

  lemma InsertedContents(txs: seq<Tx>, t: Tx, x: Tx)
    ensures x in Inserted(txs, t) <==> x in txs || x == t
  {
    var i := Position(txs, t);
    assert txs == txs[..i] + txs[i..];
  }

  /** `addTx`: the new pool and whether the transaction was added. */
  function Added(hash: (nat, nat) -> Hash, p: Pool, t: Tx): (Pool, bool) {
    var h := HashOf(hash, t);
    if h in p.hs then (p, false)
    else if Clashes(hash, p.txs, t) then (p.(hs := p.hs + {h}), false)
    else (Pool(Inserted(p.txs, t), p.hs + {h}), true)
  }

  /** Once the hash is new the container accepts the transaction, since equivalent transactions have equal hashes: the
      second insertion cannot fail, and a refusal changes nothing. */
  lemma SecondInsertionSucceeds(hash: (nat, nat) -> Hash, p: Pool, t: Tx)
    requires Valid(hash, p)
    ensures HashOf(hash, t) !in p.hs ==> !Clashes(hash, p.txs, t)
    ensures var r := Added(hash, p, t);
            && (r.1 <==> HashOf(hash, t) !in p.hs)
            && (!r.1 ==> r.0 == p)
            && (r.1 ==> forall x :: x in r.0.txs <==> x in p.txs || x == t)
            && Valid(hash, r.0)
  {
    if HashOf(hash, t) !in p.hs {
      forall i | 0 <= i < |p.txs|
        ensures HashOf(hash, p.txs[i]) != HashOf(hash, t) && (TxLess(p.txs[i], t) || TxLess(t, p.txs[i]))
      {
        TxOrder(p.txs[i], t, t);
      }
      InsertedSorted(hash, p.txs, t);
      forall x
        ensures x in Inserted(p.txs, t) <==> x in p.txs || x == t
      {
        InsertedContents(p.txs, t, x);
      }
    }
  }

  // ----- Popping by hash -----

  /** `getTxByHash`. */
  function Popped(hash: (nat, nat) -> Hash, txs: seq<Tx>, h: Hash): (r: seq<Tx>) {
    if txs == [] then []
    else if HashOf(hash, txs[0]) == h then txs[1..]
    else [txs[0]] + Popped(hash, txs[1..], h)
  }

  lemma {:induction false} PoppedIs(hash: (nat, nat) -> Hash, txs: seq<Tx>, i: nat)
    requires i < |txs| && forall k :: 0 <= k < i ==> HashOf(hash, txs[k]) != HashOf(hash, txs[i])
    ensures Popped(hash, txs, HashOf(hash, txs[i])) == txs[..i] + txs[i + 1..]
  {
    if i > 0 {
      assert txs[1..][i - 1] == txs[i];
      PoppedIs(hash, txs[1..], i - 1);
      assert [txs[0]] + txs[1..][..i - 1] == txs[..i];
    }
  }

  lemma {:induction false} PoppedNothing(hash: (nat, nat) -> Hash, txs: seq<Tx>, h: Hash)
    requires forall k :: 0 <= k < |txs| ==> HashOf(hash, txs[k]) != h
    ensures Popped(hash, txs, h) == txs
  {
    if txs != [] {
      PoppedNothing(hash, txs[1..], h);
    }
  }

  lemma PoppedValid(hash: (nat, nat) -> Hash, p: Pool, i: nat)
    requires Valid(hash, p) && i < |p.txs|
    ensures Valid(hash, p.(txs := p.txs[..i] + p.txs[i + 1..]))
  {
  }

  // ----- Washing -----

  /** `washTxs`: the transactions whose hash is new, and the history after. */
  function Washed(hash: (nat, nat) -> Hash, hs: set<Hash>, txs: seq<Tx>): (seq<Tx>, set<Hash>) {
    if txs == [] then ([], hs)
    else
      var (kept, known) := Washed(hash, hs, txs[..|txs| - 1]);
      var t := txs[|txs| - 1];
      if HashOf(hash, t) in known then (kept, known) else (kept + [t], known + {HashOf(hash, t)})
  }

  ghost function Hashes(hash: (nat, nat) -> Hash, txs: seq<Tx>): set<Hash> {
    set t | t in txs :: HashOf(hash, t)
  }

  /** Transactions with new and pairwise different hashes. */
  ghost predicate AllNew(hash: (nat, nat) -> Hash, hs: set<Hash>, txs: seq<Tx>) {
    && (forall i :: 0 <= i < |txs| ==> HashOf(hash, txs[i]) !in hs)
    && (forall i, j :: 0 <= i < j < |txs| ==> HashOf(hash, txs[i]) != HashOf(hash, txs[j]))
  }

  lemma HashesAppend(hash: (nat, nat) -> Hash, txs: seq<Tx>, t: Tx)
    ensures Hashes(hash, txs + [t]) == Hashes(hash, txs) + {HashOf(hash, t)}
  {
    hide HashOf;
    forall h
      ensures h in Hashes(hash, txs + [t]) <==> h in Hashes(hash, txs) + {HashOf(hash, t)}
    {
      assert forall x :: x in txs + [t] <==> x in txs || x == t;
    }
  }

  lemma AllNewAppend(hash: (nat, nat) -> Hash, hs: set<Hash>, txs: seq<Tx>, t: Tx)
    requires AllNew(hash, hs, txs) && HashOf(hash, t) !in hs + Hashes(hash, txs)
    ensures AllNew(hash, hs, txs + [t])
  {
    hide HashOf;
    assert forall i :: 0 <= i < |txs| ==> HashOf(hash, txs[i]) in Hashes(hash, txs);
  }

  /** Washing keeps each new hash once. */
  lemma {:induction false} WashedIs(hash: (nat, nat) -> Hash, hs: set<Hash>, txs: seq<Tx>)
    ensures var (kept, known) := Washed(hash, hs, txs);
            AllNew(hash, hs, kept) && known == hs + Hashes(hash, txs) && known == hs + Hashes(hash, kept)
  {
    hide HashOf, Hashes, AllNew;
    if txs != [] {
      var before, t := txs[..|txs| - 1], txs[|txs| - 1];
      WashedIs(hash, hs, before);
      var (kept, known) := Washed(hash, hs, before);
      assert txs == before + [t];
      HashesAppend(hash, before, t);
      if HashOf(hash, t) !in known {
        HashesAppend(hash, kept, t);
        AllNewAppend(hash, hs, kept, t);
      }
    } else {
      Nothing(hash, hs);
    }
  }

  lemma Nothing(hash: (nat, nat) -> Hash, hs: set<Hash>)
    ensures AllNew(hash, hs, []) && Hashes(hash, []) == {}
  {
  }

  lemma WashedNext(hash: (nat, nat) -> Hash, hs: set<Hash>, txs: seq<Tx>, t: Tx)
    ensures var (kept, known) := Washed(hash, hs, txs);
            Washed(hash, hs, txs + [t]) ==
              if HashOf(hash, t) in known then (kept, known) else (kept + [t], known + {HashOf(hash, t)})
    ensures Washed(hash, hs, []) == ([], hs)
  {
    assert (txs + [t])[..|txs|] == txs;
  }

  /** What has been washed stays when it is washed again from the same history. */
  lemma {:induction false} WashedAgain(hash: (nat, nat) -> Hash, hs: set<Hash>, txs: seq<Tx>)
    ensures Washed(hash, hs, Washed(hash, hs, txs).0) == Washed(hash, hs, txs)
  {
    hide HashOf;
    if txs != [] {
      WashedAgain(hash, hs, txs[..|txs| - 1]);
      var kept, t := Washed(hash, hs, txs[..|txs| - 1]).0, txs[|txs| - 1];
      assert (kept + [t])[..|kept|] == kept;
    }
  }

  // ----- The class -----

  class Mempool {
    const hash: (nat, nat) -> Hash
    const maxTxsPerBatch: nat
    var txs: seq<Tx>
    var hs: set<Hash>

    ghost function View(): Pool
      reads this
    {
      Pool(txs, hs)
    }

    constructor (hash: (nat, nat) -> Hash, known: set<Hash>, max: nat)
      ensures View() == Pool([], known) && Valid(hash, View()) && this.hash == hash && maxTxsPerBatch == max
    {
      this.hash, maxTxsPerBatch, txs, hs := hash, max, [], known;
    }

    /** `addTx`. */
    method AddTx(t: Tx) returns (ok: bool)
      requires Valid(hash, View())
      modifies this
      ensures Valid(hash, View()) && (View(), ok) == Added(hash, old(View()), t)
      ensures ok <==> HashOf(hash, t) !in old(hs)
      ensures ok ==> forall x :: x in txs <==> x in old(txs) || x == t
    {
      SecondInsertionSucceeds(hash, View(), t);
      if HashOf(hash, t) in hs {
        return false;
      }
      hs := hs + {HashOf(hash, t)};
      if Clashes(hash, txs, t) {
        return false;
      }
      txs := Inserted(txs, t);
      return true;
    }

    /** `getTxByHash`: takes the transaction out of the pool. */
    method GetTxByHash(h: Hash) returns (found: bool, t: Tx)
      requires Valid(hash, View())
      modifies this`txs
      ensures Valid(hash, View()) && txs == Popped(hash, old(txs), h)
      ensures found <==> exists i :: 0 <= i < |old(txs)| && HashOf(hash, old(txs)[i]) == h
      ensures found ==> HashOf(hash, t) == h && t in old(txs) && |txs| == |old(txs)| - 1
    {
      t := Tx(0, 0, 0, "");
      for i := 0 to |txs|
        invariant txs == old(txs) && forall k :: 0 <= k < i ==> HashOf(hash, txs[k]) != h
      {
        if HashOf(hash, txs[i]) == h {
          PoppedIs(hash, txs, i);
          PoppedValid(hash, View(), i);
          found, t := true, txs[i];
          txs := txs[..i] + txs[i + 1..];
          return;
        }
      }
      PoppedNothing(hash, txs, h);
      found := false;
    }

    /** `washTxs`. */
    method WashTxs(batch: seq<Tx>) returns (kept: seq<Tx>)
      requires Valid(hash, View())
      modifies this`hs
      ensures Valid(hash, View()) && (kept, hs) == Washed(hash, old(hs), batch)
    {
      kept := [];
      for i := 0 to |batch|
        invariant (kept, hs) == Washed(hash, old(hs), batch[..i]) && old(hs) <= hs
      {
        assert batch[..i + 1][..i] == batch[..i];
        var h := HashOf(hash, batch[i]);
        if h !in hs {
          hs := hs + {h};
          kept := kept + [batch[i]];
        }
      }
      assert batch[..|batch|] == batch;
    }

    /** `getTxHashesForSeal`: the hashes of the first transactions. */
    method GetTxHashesForSeal() returns (out: seq<Hash>)
      ensures out == SealHashes(hash, txs, maxTxsPerBatch)
    {
      out := [];
      var i := 0;
      while i < |txs| && i < maxTxsPerBatch
        invariant i <= |txs| && i <= maxTxsPerBatch && |out| == i
        invariant forall k :: 0 <= k < i ==> out[k] == HashOf(hash, txs[k])
      {
        out := out + [HashOf(hash, txs[i])];
        i := i + 1;
      }
    }
  }

  function SealHashes(hash: (nat, nat) -> Hash, txs: seq<Tx>, max: nat): seq<Hash> {
    var n := if |txs| < max then |txs| else max;
    seq(n, i requires 0 <= i < n => HashOf(hash, txs[i]))
  }

  /** The order is that of time, then sender, then nonce. */
  lemma TxLessIs(a: Tx, b: Tx)
    ensures TxLess(a, b) <==>
              || a.timestamp < b.timestamp
              || (a.timestamp == b.timestamp && a.from < b.from)
              || (a.timestamp == b.timestamp && a.from == b.from && a.nonce < b.nonce)
  {
  }

  /** Older transactions are sealed first: the hashes for a block are those of as many transactions as there are, or
      as a batch may hold, and none that is left behind is older than one of these, nor as old and from a smaller
      sender, or from the same one with a smaller nonce. */
  lemma OldestFirst(hash: (nat, nat) -> Hash, p: Pool, max: nat, i: nat, j: nat)
    requires Valid(hash, p)
    ensures var hs := SealHashes(hash, p.txs, max);
            && (|hs| == |p.txs| <= max || |hs| == max <= |p.txs|)
            && (i < |hs| ==> hs[i] == HashOf(hash, p.txs[i]))
            && (i < |hs| <= j < |p.txs| ==>
                  var sealed, left := p.txs[i], p.txs[j];
                  && sealed.timestamp <= left.timestamp
                  && (sealed.timestamp == left.timestamp ==> sealed.from <= left.from)
                  && (sealed.timestamp == left.timestamp && sealed.from == left.from ==> sealed.nonce < left.nonce))
  {
    hide HashOf;
  }
}
