/** The command executors behind the consensus (exeForCnsss.hpp): they run a command and rewrite it for the others. */
module Executors {
  import opened Mempool
  import opened Options

  /** A block, and the same with transaction hashes in place of transactions. */
  datatype Blk = Blk(number: nat, parentHash: Hash, txs: seq<Tx>)
  datatype BlkForConsensus = BlkForConsensus(number: nat, parentHash: Hash, txhs: seq<Hash>)

  /** Hashing, parsing and serialising, and whether the block executor commits a block on top of a chain. */
  datatype Env = Env(hash: (nat, nat) -> Hash, blkHash: Blk -> Hash,
                     parseTxs: string -> Option<seq<Tx>>, writeTxs: seq<Tx> -> string,
                     parseBlk: string -> Option<Blk>, writeBlk: Blk -> string,
                     parseShort: string -> Option<BlkForConsensus>, commits: (seq<Blk>, Blk) -> bool)

  /** What is written can be read back. */
  ghost predicate Faithful(env: Env) {
    && (forall txs :: env.parseTxs(env.writeTxs(txs)) == Some(txs))
    && (forall b :: env.parseBlk(env.writeBlk(b)) == Some(b))
  }

  /** The prefixes EXECUTE_BLK and ADD_TXS. */
  const BLK := 'b'
  const TXS := 't'

  // ----- Adding transactions -----

  /** The pool after a batch, and the transactions it accepted. */
  function AddedAll(hash: (nat, nat) -> Hash, p: Pool, txs: seq<Tx>): (Pool, seq<Tx>) {
    if txs == [] then (p, [])
    else
      var (q, kept) := AddedAll(hash, p, txs[..|txs| - 1]);
      var (r, ok) := Added(hash, q, txs[|txs| - 1]);
      (r, if ok then kept + [txs[|txs| - 1]] else kept)
  }

  /** The accepted transactions have new, different hashes, and these are what the history gains. */
  lemma {:induction false} AddedAllIs(hash: (nat, nat) -> Hash, p: Pool, txs: seq<Tx>)
    requires Valid(hash, p)
    ensures var (q, kept) := AddedAll(hash, p, txs);
            Valid(hash, q) && AllNew(hash, p.hs, kept) && q.hs == p.hs + Hashes(hash, kept)
  {
    hide Valid, AllNew, Hashes, HashOf;
    if txs != [] {
      var before, t := txs[..|txs| - 1], txs[|txs| - 1];
      AddedAllIs(hash, p, before);
      var (q, kept) := AddedAll(hash, p, before);
      SecondInsertionSucceeds(hash, q, t);
      HashesAppend(hash, kept, t);
      if HashOf(hash, t) !in q.hs {
        AllNewAppend(hash, p.hs, kept, t);
      }
    } else {
      Nothing(hash, p.hs);
    }
  }

  /** Adding only the accepted transactions gives the same pool and accepts them all. */
  lemma {:induction false} AddedAgain(hash: (nat, nat) -> Hash, p: Pool, txs: seq<Tx>)
    requires Valid(hash, p)
    ensures AddedAll(hash, p, AddedAll(hash, p, txs).1) == AddedAll(hash, p, txs)
  {
    hide Valid, HashOf, AllNew;
    if txs != [] {
      var before, t := txs[..|txs| - 1], txs[|txs| - 1];
      AddedAgain(hash, p, before);
      AddedAllIs(hash, p, before);
      var (q, kept) := AddedAll(hash, p, before);
      SecondInsertionSucceeds(hash, q, t);
      assert (kept + [t])[..|kept|] == kept;
    }
  }

  // ----- Collecting a block -----

  function Found(hash: (nat, nat) -> Hash, txs: seq<Tx>, h: Hash): (r: Option<Tx>)
    ensures r.Some? ==> r.value in txs && HashOf(hash, r.value) == h
    ensures r.None? ==> forall i :: 0 <= i < |txs| ==> HashOf(hash, txs[i]) != h
  {
    if txs == [] then None else if HashOf(hash, txs[0]) == h then Some(txs[0]) else Found(hash, txs[1..], h)
  }

  /** `toBlk`: the transactions named by their hashes, taken out of the pool until one is missing. */
  function Collected(hash: (nat, nat) -> Hash, txs: seq<Tx>, txhs: seq<Hash>): (seq<Tx>, Option<seq<Tx>>) {
    if txhs == [] then (txs, Some([]))
    else
      var (left, got) := Collected(hash, txs, txhs[..|txhs| - 1]);
      var t := Found(hash, left, txhs[|txhs| - 1]);
      if got.None? || t.None? then (left, None)
      else (Popped(hash, left, txhs[|txhs| - 1]), Some(got.value + [t.value]))
  }

  lemma FoundAt(hash: (nat, nat) -> Hash, txs: seq<Tx>, i: nat)
    requires i < |txs| && forall k :: 0 <= k < |txs| && k != i ==> HashOf(hash, txs[k]) != HashOf(hash, txs[i])
    ensures Found(hash, txs, HashOf(hash, txs[i])) == Some(txs[i])
  {
  }

  lemma {:induction false} CollectedPrefix(hash: (nat, nat) -> Hash, txs: seq<Tx>, txhs: seq<Hash>)
    requires forall i, j :: 0 <= i < j < |txs| ==> HashOf(hash, txs[i]) != HashOf(hash, txs[j])
    requires |txhs| <= |txs| && forall i :: 0 <= i < |txhs| ==> txhs[i] == HashOf(hash, txs[i])
    ensures Collected(hash, txs, txhs) == (txs[|txhs|..], Some(txs[..|txhs|]))
    decreases |txhs|
  {
    hide HashOf, Found, Popped;
    var n := |txhs| - 1;
    if txhs == [] {
      assert txs[0..] == txs;
    } else {
      CollectedPrefix(hash, txs, txhs[..n]);
      var left := txs[n..];
      FoundAt(hash, left, 0);
      PoppedIs(hash, left, 0);
      assert left[..0] + left[1..] == txs[n + 1..];
      assert txs[..n] + [left[0]] == txs[..n + 1];
    }
  }

  /** A block sealed from the pool can be collected from it: its transactions are the first of the pool, in order, and
      they leave the pool. */
  lemma SealedIsCollected(hash: (nat, nat) -> Hash, p: Pool, max: nat)
    requires Valid(hash, p)
    ensures var n := if |p.txs| < max then |p.txs| else max;
            Collected(hash, p.txs, SealHashes(hash, p.txs, max)) == (p.txs[n..], Some(p.txs[..n]))
  {
    hide HashOf, Collected, Sorted;
    CollectedPrefix(hash, p.txs, SealHashes(hash, p.txs, max));
  }

  // ----- The plain executor -----

  /** The pool and the chain of a node. */
  datatype State = State(pool: Pool, chain: seq<Blk>)

  /** `handle_ADD_TXS`: the state after and the command as it is passed on. */
  function AddTxs(env: Env, s: State, cmd: string): (State, string)
    requires cmd != ""
  {
    var txs := env.parseTxs(cmd[1..]);
    if txs.None? then (s, "")
    else
      var (pool, kept) := AddedAll(env.hash, s.pool, txs.value);
      (s.(pool := pool), if kept == [] then "" else if |kept| < |txs.value| then [TXS] + env.writeTxs(kept) else cmd)
  }

  /** `handle_EXECUTE_BLK`. */
  function ExecuteBlk(env: Env, s: State, cmd: string): (State, string)
    requires cmd != ""
  {
    var short := env.parseShort(cmd[1..]);
    if short.None? then (s, "")
    else
      var (left, txs) := Collected(env.hash, s.pool.txs, short.value.txhs);
      var s' := s.(pool := s.pool.(txs := left));
      if txs.None? then (s', "")
      else
        var b := Blk(short.value.number, short.value.parentHash, txs.value);
        if env.commits(s.chain, b) then (s'.(chain := s.chain + [b]), cmd) else (s', "")
  }

  /** `execute`. */
  function Executed(env: Env, s: State, cmd: string): (State, string) {
    if cmd == "" then (s, "")
    else if cmd[0] == BLK then ExecuteBlk(env, s, cmd)
    else if cmd[0] == TXS then AddTxs(env, s, cmd)
    else (s, "")
  }

  /** Every hash names a transaction of the pool, and none is named twice. */
  ghost predicate Available(hash: (nat, nat) -> Hash, txs: seq<Tx>, txhs: seq<Hash>) {
    && (forall i :: 0 <= i < |txhs| ==> Found(hash, txs, txhs[i]).Some?)
    && (forall i, j :: 0 <= i < j < |txhs| ==> txhs[i] != txhs[j])
  }

  /** The transactions named by available hashes. */
  ghost function Named(hash: (nat, nat) -> Hash, txs: seq<Tx>, txhs: seq<Hash>): seq<Tx>
    requires Available(hash, txs, txhs)
  {
    seq(|txhs|, i requires 0 <= i < |txhs| => Found(hash, txs, txhs[i]).value)
  }

  /** A block that is lost half way: its first transaction is in the pool, but another is missing or named twice, or the
      block is not committed. */
  ghost predicate Loses(env: Env, s: State, cmd: string) {
    && cmd != "" && cmd[0] == BLK && env.parseShort(cmd[1..]).Some?
    && var short := env.parseShort(cmd[1..]).value;
       && short.txhs != [] && Found(env.hash, s.pool.txs, short.txhs[0]).Some?
       && (Available(env.hash, s.pool.txs, short.txhs) ==>
             !env.commits(s.chain, Blk(short.number, short.parentHash, Named(env.hash, s.pool.txs, short.txhs))))
  }

  lemma {:induction false} ShorterMeansSame(hash: (nat, nat) -> Hash, p: Pool, txs: seq<Tx>)
    ensures var kept := AddedAll(hash, p, txs).1; |kept| <= |txs| && (|kept| == |txs| ==> kept == txs)
  {
    if txs != [] {
      ShorterMeansSame(hash, p, txs[..|txs| - 1]);
      assert txs == txs[..|txs| - 1] + [txs[|txs| - 1]];
    }
  }

  lemma {:induction false} PoppedShorter(hash: (nat, nat) -> Hash, txs: seq<Tx>, h: Hash)
    ensures |Popped(hash, txs, h)| == if Found(hash, txs, h).Some? then |txs| - 1 else |txs|
  {
    if txs != [] {
      PoppedShorter(hash, txs[1..], h);
    }
  }

  /** Collecting takes something out of the pool exactly when it finds the first transaction. */
  lemma {:induction false} CollectedShrinks(hash: (nat, nat) -> Hash, txs: seq<Tx>, txhs: seq<Hash>)
    ensures var (left, got) := Collected(hash, txs, txhs);
            if txhs == [] || Found(hash, txs, txhs[0]).None? then left == txs && (txhs != [] ==> got.None?)
            else |left| < |txs|
    decreases |txhs|
  {
    hide HashOf;
    if |txhs| == 1 {
      assert txhs[..0] == [];
      PoppedShorter(hash, txs, txhs[0]);
    } else if |txhs| > 1 {
      var n := |txhs| - 1;
      CollectedShrinks(hash, txs, txhs[..n]);
      PoppedShorter(hash, Collected(hash, txs, txhs[..n]).0, txhs[n]);
    }
  }

  /** Taking one transaction out leaves the others. */
  lemma {:induction false} PoppedFound(hash: (nat, nat) -> Hash, txs: seq<Tx>, g: Hash, h: Hash)
    requires forall i, j :: 0 <= i < j < |txs| ==> HashOf(hash, txs[i]) != HashOf(hash, txs[j])
    ensures Found(hash, Popped(hash, txs, g), h) == if h == g then None else Found(hash, txs, h)
  {
    hide HashOf;
    if txs != [] {
      PoppedFound(hash, txs[1..], g, h);
    }
  }

  /** Collecting succeeds exactly for available hashes, with the transactions they name, and takes these out. */
  lemma {:induction false} CollectedIs(hash: (nat, nat) -> Hash, p: Pool, txhs: seq<Hash>)
    requires Valid(hash, p)
    ensures var (left, got) := Collected(hash, p.txs, txhs);
            && (got.Some? <==> Available(hash, p.txs, txhs))
            && (got.Some? ==> got.value == Named(hash, p.txs, txhs))
            && (got.Some? ==> forall h :: Found(hash, left, h) == if h in txhs then None else Found(hash, p.txs, h))
    decreases |txhs|
  {
    hide HashOf, Found, Popped;
    if txhs != [] {
      var n := |txhs| - 1;
      var before, g := txhs[..n], txhs[n];
      CollectedIs(hash, p, before);
      var (left, got) := Collected(hash, p.txs, before);
      AvailableStep(hash, p.txs, before, g);
      assert txhs == before + [g];
      if got.Some? {
        CollectedValid(hash, p, before);
        forall h
          ensures Found(hash, Popped(hash, left, g), h) == if h == g then None else Found(hash, left, h)
        {
          PoppedFound(hash, left, g, h);
        }
      }
    }
  }

  lemma AvailableStep(hash: (nat, nat) -> Hash, txs: seq<Tx>, before: seq<Hash>, g: Hash)
    ensures Available(hash, txs, before + [g]) <==>
              Available(hash, txs, before) && g !in before && Found(hash, txs, g).Some?
    ensures Available(hash, txs, before + [g]) ==>
              Named(hash, txs, before + [g]) == Named(hash, txs, before) + [Found(hash, txs, g).value]
  {
    hide Found;
    var all := before + [g];
    assert all[|before|] == g;
    assert forall i :: 0 <= i < |before| ==> all[i] == before[i];
  }

  /** Rewriting preserves meaning, unless a block is lost: the rewritten command has on the same state the effect of the
      original, and is not rewritten again. */
  lemma RewritingPreserves(env: Env, s: State, cmd: string)
    requires Faithful(env) && Valid(env.hash, s.pool) && !Loses(env, s, cmd)
    ensures Executed(env, s, Executed(env, s, cmd).1) == Executed(env, s, cmd)
  {
    hide Valid, AddedAll, Collected, Found, Available, Named;
    if cmd != "" && cmd[0] == TXS && env.parseTxs(cmd[1..]).Some? {
      AddingPreserves(env, s, cmd);
    }
    if cmd != "" && cmd[0] == BLK && env.parseShort(cmd[1..]).Some? {
      var txhs := env.parseShort(cmd[1..]).value.txhs;
      CollectedIs(env.hash, s.pool, txhs);
      CollectedShrinks(env.hash, s.pool.txs, txhs);
    }
  }

  lemma AddingPreserves(env: Env, s: State, cmd: string)
    requires Faithful(env) && Valid(env.hash, s.pool) && cmd != "" && cmd[0] == TXS && env.parseTxs(cmd[1..]).Some?
    ensures Executed(env, s, Executed(env, s, cmd).1) == Executed(env, s, cmd)
  {
    hide Valid, AddedAll, ExecuteBlk;
    var txs := env.parseTxs(cmd[1..]).value;
    var (pool, kept) := AddedAll(env.hash, s.pool, txs);
    AddedAgain(env.hash, s.pool, txs);
    AddedAllIs(env.hash, s.pool, txs);
    ShorterMeansSame(env.hash, s.pool, txs);
    if kept == [] {
      NoneAccepted(env.hash, s.pool);
    } else if |kept| < |txs| {
      assert ([TXS] + env.writeTxs(kept))[1..] == env.writeTxs(kept);
    }
  }

  /** Exactly the blocks that are lost half way break agreement: the primary has then lost transactions that the others,
      who get an empty command, keep. */
  lemma RewritingLosesIff(env: Env, s: State, cmd: string)
    requires Faithful(env) && Valid(env.hash, s.pool)
    ensures Executed(env, s, Executed(env, s, cmd).1).0 != Executed(env, s, cmd).0 <==> Loses(env, s, cmd)
  {
    hide Valid, AddedAll, Collected, HashOf, Found, Available, Named;
    if Loses(env, s, cmd) {
      var txhs := env.parseShort(cmd[1..]).value.txhs;
      CollectedIs(env.hash, s.pool, txhs);
      CollectedShrinks(env.hash, s.pool.txs, txhs);
      var short := env.parseShort(cmd[1..]).value;
      var (left, got) := Collected(env.hash, s.pool.txs, txhs);
      assert got.Some? ==> !env.commits(s.chain, Blk(short.number, short.parentHash, got.value));
      assert Executed(env, s, cmd) == (s.(pool := s.pool.(txs := left)), "");
    } else {
      RewritingPreserves(env, s, cmd);
    }
  }

  lemma CollectedNext(hash: (nat, nat) -> Hash, txs: seq<Tx>, txhs: seq<Hash>, h: Hash)
    ensures var (left, got) := Collected(hash, txs, txhs);
            var t := Found(hash, left, h);
            Collected(hash, txs, txhs + [h]) ==
              if got.None? || t.None? then (left, None) else (Popped(hash, left, h), Some(got.value + [t.value]))
    ensures Collected(hash, txs, []) == (txs, Some([]))
  {
    assert (txhs + [h])[..|txhs|] == txhs;
  }

  /** Such a block: the first transaction it names is in the pool and the second is not. The primary drops the first, a
      replica in the same state, which gets the empty command, keeps it. */
  lemma LostTransaction(env: Env, h: Hash)
    requires env.parseShort("") == Some(BlkForConsensus(1, "", [env.hash(0, 0), h])) && h != env.hash(0, 0)
    ensures var s := State(Pool([Tx(0, 0, 0, "")], {env.hash(0, 0)}), []);
            && Valid(env.hash, s.pool) && Loses(env, s, "b")
            && Executed(env, s, "b") == (s.(pool := s.pool.(txs := [])), "") && Executed(env, s, "").0 == s
  {
    hide Collected;
    var t, g := Tx(0, 0, 0, ""), env.hash(0, 0);
    assert HashOf(env.hash, t) == g && [t][1..] == [] && "b"[1..] == "" && [] + [t] == [t];
    assert [g, h] == [g] + [h] && [g] == [] + [g];
    CollectedNext(env.hash, [t], [], g);
    CollectedNext(env.hash, [t], [g], h);
    assert Found(env.hash, [t], h) == None && Found(env.hash, [t], g) == Some(t) && Popped(env.hash, [t], g) == [];
    assert Collected(env.hash, [t], [g]) == ([], Some([t]));
    assert Found(env.hash, [], h) == None;
    assert Collected(env.hash, [t], [g, h]) == ([], None);
    assert !Available(env.hash, [t], [g, h]) by { assert [g, h][1] == h; }
  }

  lemma NoneAccepted(hash: (nat, nat) -> Hash, p: Pool)
    ensures AddedAll(hash, p, []) == (p, [])
  {
  }

  lemma {:induction false} CollectedValid(hash: (nat, nat) -> Hash, p: Pool, txhs: seq<Hash>)
    requires Valid(hash, p)
    ensures Valid(hash, p.(txs := Collected(hash, p.txs, txhs).0))
  {
    hide HashOf;
    if txhs != [] {
      CollectedValid(hash, p, txhs[..|txhs| - 1]);
      var left, h := Collected(hash, p.txs, txhs[..|txhs| - 1]).0, txhs[|txhs| - 1];
      if Found(hash, left, h).Some? {
        var i :| 0 <= i < |left| && HashOf(hash, left[i]) == h;
        PoppedIs(hash, left, i);
        PoppedValid(hash, p.(txs := left), i);
      }
    }
  }

  lemma ExecutedValid(env: Env, s: State, cmd: string)
    requires Valid(env.hash, s.pool)
    ensures Valid(env.hash, Executed(env, s, cmd).0.pool)
  {
    hide Valid, AddedAll, Collected;
    if cmd != "" && env.parseTxs(cmd[1..]).Some? {
      AddedAllIs(env.hash, s.pool, env.parseTxs(cmd[1..]).value);
    }
    if cmd != "" && env.parseShort(cmd[1..]).Some? {
      CollectedValid(env.hash, s.pool, env.parseShort(cmd[1..]).value.txhs);
    }
  }

  class ExecutorForCnsss {
    const env: Env
    const pool: Mempool
    var chain: seq<Blk>

    ghost predicate Ok()
      reads this, pool
    {
      pool.hash == env.hash && Valid(env.hash, pool.View())
    }

    ghost function View(): State
      reads this, pool
    {
      State(pool.View(), chain)
    }

    constructor (env: Env, pool: Mempool)
      requires pool.hash == env.hash && Valid(env.hash, pool.View())
      ensures Ok() && this.env == env && this.pool == pool && View() == State(pool.View(), [])
    {
      this.env, this.pool, chain := env, pool, [];
    }

    /** `handle_ADD_TXS`: refused transactions are erased, and the command rewritten when some were. */
    method HandleAddTxs(cmd: string) returns (out: string)
      requires Ok() && cmd != ""
      modifies this, pool
      ensures Ok() && (View(), out) == AddTxs(env, old(View()), cmd)
    {
      hide Valid, Added;
      var parsed := env.parseTxs(cmd[1..]);
      if parsed.None? {
        return "";
      }
      var all, txs, i := parsed.value, parsed.value, 0;
      ghost var seen := 0;
      while i < |txs|
        invariant Ok() && chain == old(chain) && i <= |txs| && seen <= |all| && txs[i..] == all[seen..]
        invariant (pool.View(), txs[..i]) == AddedAll(env.hash, old(pool.View()), all[..seen])
      {
        assert all[..seen + 1][..seen] == all[..seen];
        assert txs[i] == all[seen] by { assert txs[i] == txs[i..][0] && all[seen] == all[seen..][0]; }
        assert txs[i + 1..] == all[seen + 1..] by {
          assert txs[i + 1..] == txs[i..][1..] && all[seen + 1..] == all[seen..][1..];
        }
        var ok := pool.AddTx(txs[i]);
        if ok {
          assert txs[..i + 1] == txs[..i] + [txs[i]];
          i := i + 1;
        } else {
          txs := txs[..i] + txs[i + 1..];
        }
        seen := seen + 1;
      }
      assert txs[..i] == txs && all[..seen] == all;
      if txs == [] {
        return "";
      }
      return if |txs| < |all| then [TXS] + env.writeTxs(txs) else cmd;
    }

    /** `handle_EXECUTE_BLK` with `toBlk`. */
    method HandleExecuteBlk(cmd: string) returns (out: string)
      requires Ok() && cmd != ""
      modifies this, pool
      ensures Ok() && (View(), out) == ExecuteBlk(env, old(View()), cmd)
    {
      hide Valid, Popped, HashOf;
      var short := env.parseShort(cmd[1..]);
      if short.None? {
        return "";
      }
      var txhs, txs := short.value.txhs, [];
      for i := 0 to |txhs|
        invariant Ok() && chain == old(chain) && pool.hs == old(pool.hs)
        invariant (pool.txs, Some(txs)) == Collected(env.hash, old(pool.txs), txhs[..i])
      {
        assert txhs[..i + 1][..i] == txhs[..i];
        FoundFirst(env.hash, pool.View(), txhs[i]);
        var found, t := pool.GetTxByHash(txhs[i]);
        if !found {
          StuckStays(env.hash, old(pool.txs), txhs, i + 1);
          return "";
        }
        txs := txs + [t];
      }
      assert txhs[..|txhs|] == txhs;
      var b := Blk(short.value.number, short.value.parentHash, txs);
      if !env.commits(chain, b) {
        return "";
      }
      chain := chain + [b];
      return cmd;
    }

    /** `execute`. */
    method Execute(cmd: string) returns (out: string)
      requires Ok()
      modifies this, pool
      ensures Ok() && (View(), out) == Executed(env, old(View()), cmd)
    {
      hide Valid, AddTxs, ExecuteBlk;
      if cmd == "" {
        return "";
      }
      if cmd[0] == BLK {
        out := HandleExecuteBlk(cmd);
      } else if cmd[0] == TXS {
        out := HandleAddTxs(cmd);
      } else {
        out := "";
      }
    }
  }

  /** In a valid pool a hash names one transaction. */
  lemma FoundFirst(hash: (nat, nat) -> Hash, p: Pool, h: Hash)
    requires Valid(hash, p)
    ensures var t := Found(hash, p.txs, h);
            if t.None? then Popped(hash, p.txs, h) == p.txs
            else forall x :: x in p.txs && HashOf(hash, x) == h ==> x == t.value
  {
    hide HashOf, Sorted;
    if Found(hash, p.txs, h).None? {
      PoppedNothing(hash, p.txs, h);
    }
  }

  /** Once a transaction is missing, nothing more is taken. */
  lemma {:induction false} StuckStays(hash: (nat, nat) -> Hash, txs: seq<Tx>, txhs: seq<Hash>, i: nat)
    requires i <= |txhs| && Collected(hash, txs, txhs[..i]).1.None?
    ensures Collected(hash, txs, txhs) == Collected(hash, txs, txhs[..i])
    decreases |txhs|
  {
    hide HashOf, Popped;
    if i < |txhs| {
      assert txhs[..|txhs| - 1][..i] == txhs[..i];
      StuckStays(hash, txs, txhs[..|txhs| - 1], i);
    } else {
      assert txhs[..i] == txhs;
    }
  }

  // ----- The light executor -----

  /** The hash history, the chain, and the number and parent of the next block to seal. */
  datatype Light = Light(hs: set<Hash>, chain: seq<Blk>, next: nat, previous: Hash)

  /** At optimisation level 2 nothing is washed. */
  function WashedAt(env: Env, level: int, hs: set<Hash>, txs: seq<Tx>): (seq<Tx>, set<Hash>) {
    if level < 2 then Washed(env.hash, hs, txs) else (txs, hs)
  }

  /** `handle_ADD_TXS` with `seal_Blk_and_update_cmd`: the transactions become a block, the command its execution. */
  function SealTxs(env: Env, level: int, s: Light, cmd: string): (Light, string)
    requires cmd != ""
  {
    var parsed := env.parseTxs(cmd[1..]);
    if parsed.None? || parsed.value == [] then (s, "")
    else
      var (txs, hs) := WashedAt(env, level, s.hs, parsed.value);
      var b := Blk(s.next, s.previous, txs);
      if env.commits(s.chain, b) then (Light(hs, s.chain + [b], s.next + 1, env.blkHash(b)), [BLK] + env.writeBlk(b))
      else (s.(hs := hs), "")
  }

  /** `handle_EXECUTE_BLK`: does not advance the next block number. */
  function LightExecuteBlk(env: Env, level: int, s: Light, cmd: string): (Light, string)
    requires cmd != ""
  {
    var parsed := env.parseBlk(cmd[1..]);
    if parsed.None? then (s, "")
    else
      var (txs, hs) := WashedAt(env, level, s.hs, parsed.value.txs);
      var b := parsed.value.(txs := txs);
      if env.commits(s.chain, b) then (s.(hs := hs, chain := s.chain + [b]), cmd) else (s.(hs := hs), "")
  }

  function LightExecuted(env: Env, level: int, s: Light, cmd: string): (Light, string) {
    if cmd == "" then (s, "")
    else if cmd[0] == BLK then LightExecuteBlk(env, level, s, cmd)
    else if cmd[0] == TXS then SealTxs(env, level, s, cmd)
    else (s, "")
  }

  /** Some transaction of the batch has a new hash. */
  ghost predicate HasNew(env: Env, hs: set<Hash>, txs: seq<Tx>) {
    exists tx :: tx in txs && HashOf(env.hash, tx) !in hs
  }

  /** A batch or a block that is lost half way: it is not committed, after its new hashes have been recorded. */
  ghost predicate LightLoses(env: Env, level: int, s: Light, cmd: string) {
    && level < 2 && cmd != ""
    && if cmd[0] == BLK then
         && env.parseBlk(cmd[1..]).Some?
         && var b := env.parseBlk(cmd[1..]).value;
            !env.commits(s.chain, b.(txs := Washed(env.hash, s.hs, b.txs).0)) && HasNew(env, s.hs, b.txs)
       else
         && cmd[0] == TXS && env.parseTxs(cmd[1..]).Some?
         && var txs := env.parseTxs(cmd[1..]).value;
            !env.commits(s.chain, Blk(s.next, s.previous, Washed(env.hash, s.hs, txs).0)) && HasNew(env, s.hs, txs)
  }

  lemma NewIsRecorded(env: Env, hs: set<Hash>, txs: seq<Tx>)
    ensures Washed(env.hash, hs, txs).1 != hs <==> HasNew(env, hs, txs)
  {
    hide Washed, HashOf;
    WashedIs(env.hash, hs, txs);
  }

  /** Exactly the batches and blocks that are lost half way break agreement. In every other case a node with the same
      history and chain that gets the rewritten command ends with the same history and chain, whatever block it would
      have sealed next. */
  lemma SealingLosesIff(env: Env, level: int, s: Light, t: Light, cmd: string)
    requires Faithful(env) && s.hs == t.hs && s.chain == t.chain
    ensures var (s', cmd') := LightExecuted(env, level, s, cmd);
            var t' := LightExecuted(env, level, t, cmd').0;
            (t'.hs, t'.chain) != (s'.hs, s'.chain) <==> LightLoses(env, level, s, cmd)
  {
    hide Washed, HasNew;
    if cmd != "" && cmd[0] == TXS && env.parseTxs(cmd[1..]).Some? {
      var txs := env.parseTxs(cmd[1..]).value;
      WashedAgain(env.hash, s.hs, txs);
      NewIsRecorded(env, s.hs, txs);
      NothingNew(env, s.hs);
      var b := Blk(s.next, s.previous, WashedAt(env, level, s.hs, txs).0);
      assert ([BLK] + env.writeBlk(b))[1..] == env.writeBlk(b);
    } else if cmd != "" && cmd[0] == BLK && env.parseBlk(cmd[1..]).Some? {
      NewIsRecorded(env, s.hs, env.parseBlk(cmd[1..]).value.txs);
    }
  }

  lemma NothingNew(env: Env, hs: set<Hash>)
    ensures !HasNew(env, hs, [])
  {
  }

  /** Such a batch: one new transaction in a block that is not committed. The primary remembers its hash and will refuse
      it from now on, a replica will not. */
  lemma LostHash(env: Env)
    requires env.parseTxs("") == Some([Tx(0, 0, 0, "")]) && !env.commits([], Blk(0, "", [Tx(0, 0, 0, "")]))
    ensures var s := Light({}, [], 0, "");
            && LightLoses(env, 0, s, "t")
            && LightExecuted(env, 0, s, "t") == (s.(hs := {env.hash(0, 0)}), "")
            && LightExecuted(env, 0, s, "").0 == s
  {
    hide Washed;
    var t := Tx(0, 0, 0, "");
    assert "t"[1..] == "" && [t] == [] + [t] && {} + {env.hash(0, 0)} == {env.hash(0, 0)};
    WashedNext(env.hash, {}, [], t);
    assert Washed(env.hash, {}, [t]) == ([t], {env.hash(0, 0)});
    assert t in [t] && HashOf(env.hash, t) !in {};
  }

  class LightExecutorForCnsss {
    const env: Env
    const level: int
    const pool: Mempool
    var chain: seq<Blk>
    var nextBlkNumber: nat
    var previousHash: Hash

    ghost predicate Ok()
      reads this, pool
    {
      pool.hash == env.hash && Valid(env.hash, pool.View())
    }

    ghost function View(): Light
      reads this, pool
    {
      Light(pool.hs, chain, nextBlkNumber, previousHash)
    }

    constructor (env: Env, level: int, pool: Mempool, number: nat, previous: Hash)
      requires pool.hash == env.hash && Valid(env.hash, pool.View())
      ensures Ok() && this.env == env && this.level == level && this.pool == pool
      ensures View() == Light(pool.hs, [], number, previous)
    {
      this.env, this.level, this.pool, chain, nextBlkNumber, previousHash := env, level, pool, [], number, previous;
    }

    /** `seal_Blk_and_update_cmd`, for the transactions parsed from `cmd`. */
    method SealBlkAndUpdateCmd(txs: seq<Tx>, cmd: string) returns (out: string)
      requires Ok() && cmd != "" && env.parseTxs(cmd[1..]) == Some(txs) && txs != []
      modifies this, pool
      ensures Ok() && (View(), out) == SealTxs(env, level, old(View()), cmd)
    {
      hide Valid, Washed;
      var kept := txs;
      if level < 2 {
        kept := pool.WashTxs(txs);
      }
      var b := Blk(nextBlkNumber, previousHash, kept);
      if !env.commits(chain, b) {
        return "";
      }
      chain := chain + [b];
      nextBlkNumber := nextBlkNumber + 1;
      previousHash := env.blkHash(b);
      return [BLK] + env.writeBlk(b);
    }

    method HandleAddTxs(cmd: string) returns (out: string)
      requires Ok() && cmd != ""
      modifies this, pool
      ensures Ok() && (View(), out) == SealTxs(env, level, old(View()), cmd)
    {
      hide Valid, WashedAt;
      var parsed := env.parseTxs(cmd[1..]);
      if parsed.None? || parsed.value == [] {
        return "";
      }
      out := SealBlkAndUpdateCmd(parsed.value, cmd);
    }

    method HandleExecuteBlk(cmd: string) returns (out: string)
      requires Ok() && cmd != ""
      modifies this, pool
      ensures Ok() && (View(), out) == LightExecuteBlk(env, level, old(View()), cmd)
    {
      hide Valid, Washed;
      var parsed := env.parseBlk(cmd[1..]);
      if parsed.None? {
        return "";
      }
      var kept := parsed.value.txs;
      if level < 2 {
        kept := pool.WashTxs(kept);
      }
      var b := parsed.value.(txs := kept);
      if !env.commits(chain, b) {
        return "";
      }
      chain := chain + [b];
      return cmd;
    }
  }

  /** The transactions of a chain. */
  function Flat(chain: seq<Blk>): seq<Tx> {
    if chain == [] then [] else Flat(chain[..|chain| - 1]) + chain[|chain| - 1].txs
  }

  lemma {:induction false} HashesConcat(hash: (nat, nat) -> Hash, a: seq<Tx>, b: seq<Tx>)
    ensures Hashes(hash, a + b) == Hashes(hash, a) + Hashes(hash, b)
  {
    assert forall x :: x in a + b <==> x in a || x in b;
  }

  lemma AllNewConcat(hash: (nat, nat) -> Hash, hs: set<Hash>, known: set<Hash>, a: seq<Tx>, b: seq<Tx>)
    requires AllNew(hash, hs, a) && AllNew(hash, known, b) && hs + Hashes(hash, a) <= known
    ensures AllNew(hash, hs, a + b)
  {
    hide HashOf;
    assert forall i :: 0 <= i < |a| ==> HashOf(hash, a[i]) in Hashes(hash, a);
  }

  /** A command washes a batch, possibly empty, and adds a block of what is left or nothing. */
  lemma LightStepShape(env: Env, level: int, s: Light, cmd: string) returns (batch: seq<Tx>)
    requires level < 2
    ensures var s' := LightExecuted(env, level, s, cmd).0;
            var (txs, hs) := Washed(env.hash, s.hs, batch);
            && s'.hs == hs
            && (s'.chain == s.chain || exists b: Blk :: b.txs == txs && s'.chain == s.chain + [b])
  {
    batch := [];
    if cmd != "" && cmd[0] == BLK {
      var parsed := env.parseBlk(cmd[1..]);
      if parsed.Some? {
        batch := parsed.value.txs;
      }
    } else if cmd != "" && cmd[0] == TXS {
      var parsed := env.parseTxs(cmd[1..]);
      if parsed.Some? {
        batch := parsed.value;
      }
    }
  }

  lemma FlatAppend(chain: seq<Blk>, b: Blk, n: nat)
    requires n <= |chain|
    ensures Flat((chain + [b])[n..]) == Flat(chain[n..]) + b.txs
  {
    var longer := (chain + [b])[n..];
    assert longer[..|longer| - 1] == chain[n..];
  }

  /** Below level 2, every block added holds transactions with hashes never seen before, failed commits included. */
  lemma LightStepNew(env: Env, level: int, s: Light, cmd: string, hs0: set<Hash>, n: nat)
    requires level < 2 && n <= |s.chain|
    requires AllNew(env.hash, hs0, Flat(s.chain[n..])) && hs0 + Hashes(env.hash, Flat(s.chain[n..])) <= s.hs
    ensures var s' := LightExecuted(env, level, s, cmd).0;
            && n <= |s'.chain|
            && AllNew(env.hash, hs0, Flat(s'.chain[n..])) && hs0 + Hashes(env.hash, Flat(s'.chain[n..])) <= s'.hs
  {
    hide AllNew, Hashes, Washed, LightExecuted, Flat;
    var s' := LightExecuted(env, level, s, cmd).0;
    var batch := LightStepShape(env, level, s, cmd);
    WashedIs(env.hash, s.hs, batch);
    var txs := Washed(env.hash, s.hs, batch).0;
    if s'.chain != s.chain {
      var b: Blk :| b.txs == txs && s'.chain == s.chain + [b];
      FlatAppend(s.chain, b, n);
      AllNewConcat(env.hash, hs0, s.hs, Flat(s.chain[n..]), txs);
      HashesConcat(env.hash, Flat(s.chain[n..]), txs);
    }
  }

  /** The state after a run of commands. */
  function LightAfter(env: Env, level: int, s: Light, cmds: seq<string>): Light {
    if cmds == [] then s
    else LightExecuted(env, level, LightAfter(env, level, s, cmds[..|cmds| - 1]), cmds[|cmds| - 1]).0
  }

  /** No transaction hash gets on the chain twice. */
  lemma {:induction false} ChainNeverTwice(env: Env, level: int, s: Light, cmds: seq<string>)
    requires level < 2
    ensures var s' := LightAfter(env, level, s, cmds);
            && |s.chain| <= |s'.chain| && AllNew(env.hash, s.hs, Flat(s'.chain[|s.chain|..]))
            && s.hs + Hashes(env.hash, Flat(s'.chain[|s.chain|..])) <= s'.hs
  {
    hide LightExecuted, AllNew, Hashes;
    if cmds == [] {
      assert s.chain[|s.chain|..] == [];
      Nothing(env.hash, s.hs);
    } else {
      ChainNeverTwice(env, level, s, cmds[..|cmds| - 1]);
      LightStepNew(env, level, LightAfter(env, level, s, cmds[..|cmds| - 1]), cmds[|cmds| - 1], s.hs, |s.chain|);
    }
  }

  // ----- Never accepted twice -----

  function StateAfter(env: Env, s: State, cmds: seq<string>): State {
    if cmds == [] then s else Executed(env, StateAfter(env, s, cmds[..|cmds| - 1]), cmds[|cmds| - 1]).0
  }

  /** The transactions one command brings into the pool. */
  function AcceptedBy(env: Env, s: State, cmd: string): seq<Tx> {
    if cmd != "" && cmd[0] == TXS && env.parseTxs(cmd[1..]).Some?
    then AddedAll(env.hash, s.pool, env.parseTxs(cmd[1..]).value).1 else []
  }

  function Accepted(env: Env, s: State, cmds: seq<string>): seq<Tx> {
    if cmds == [] then []
    else
      var before := cmds[..|cmds| - 1];
      Accepted(env, s, before) + AcceptedBy(env, StateAfter(env, s, before), cmds[|cmds| - 1])
  }

  /** Over a whole run no hash is accepted twice, nor one known at the start, even after its transaction has left the
      pool; and the history is exactly what was known and what was accepted. */
  lemma {:induction false} PoolNeverTwice(env: Env, s: State, cmds: seq<string>)
    requires Valid(env.hash, s.pool)
    ensures var s' := StateAfter(env, s, cmds);
            && Valid(env.hash, s'.pool) && AllNew(env.hash, s.pool.hs, Accepted(env, s, cmds))
            && s'.pool.hs == s.pool.hs + Hashes(env.hash, Accepted(env, s, cmds))
  {
    hide Valid, AllNew, Hashes, AddedAll, Collected;
    Nothing(env.hash, s.pool.hs);
    if cmds != [] {
      var before, cmd := cmds[..|cmds| - 1], cmds[|cmds| - 1];
      PoolNeverTwice(env, s, before);
      var t := StateAfter(env, s, before);
      var earlier, now := Accepted(env, s, before), AcceptedBy(env, t, cmd);
      ExecutedValid(env, t, cmd);
      if cmd != "" && cmd[0] == TXS && env.parseTxs(cmd[1..]).Some? {
        AddedAllIs(env.hash, t.pool, env.parseTxs(cmd[1..]).value);
      } else {
        Nothing(env.hash, t.pool.hs);
      }
      AllNewConcat(env.hash, s.pool.hs, t.pool.hs, earlier, now);
      HashesConcat(env.hash, earlier, now);
    }
  }

  // ----- The chain -----

  /** A block that is committed from the pool has the number, the parent and the transactions that were named, in order;
      these leave the pool, the history keeps their hashes. */
  lemma ExecutedBlock(env: Env, s: State, cmd: string)
    requires Valid(env.hash, s.pool) && cmd != "" && cmd[0] == 'b' && env.parseShort(cmd[1..]).Some?
    requires Available(env.hash, s.pool.txs, env.parseShort(cmd[1..]).value.txhs)
    ensures var (s', cmd') := Executed(env, s, cmd);
            var short := env.parseShort(cmd[1..]).value;
            var b := Blk(short.number, short.parentHash, Named(env.hash, s.pool.txs, short.txhs));
            && (forall i :: 0 <= i < |short.txhs| ==>
                  HashOf(env.hash, b.txs[i]) == short.txhs[i] && b.txs[i] in s.pool.txs)
            && s'.chain == (if env.commits(s.chain, b) then s.chain + [b] else s.chain)
            && cmd' == (if env.commits(s.chain, b) then cmd else "")
            && s'.pool.hs == s.pool.hs
            && (forall h :: Found(env.hash, s'.pool.txs, h) ==
                  if h in short.txhs then None else Found(env.hash, s.pool.txs, h))
  {
    hide Valid, Collected, HashOf, Found;
    CollectedIs(env.hash, s.pool, env.parseShort(cmd[1..]).value.txhs);
  }

  /** A batch that is committed becomes a block with the next number on top of the last block sealed, and is passed
      on as its execution. */
  lemma SealedBlock(env: Env, level: int, s: Light, cmd: string)
    requires cmd != "" && cmd[0] == 't'
    ensures var (s', cmd') := LightExecuted(env, level, s, cmd);
            if s'.chain == s.chain then s'.next == s.next && s'.previous == s.previous && cmd' == ""
            else
              && |s'.chain| == |s.chain| + 1 && s'.chain[..|s.chain|] == s.chain
              && var b := s'.chain[|s.chain|];
                 && b.number == s.next && b.parentHash == s.previous && env.commits(s.chain, b)
                 && s'.next == b.number + 1 && s'.previous == env.blkHash(b) && cmd' == ['b'] + env.writeBlk(b)
  {
    hide Washed;
  }

  /** Executing a block that another node has sealed leaves the number and the parent of the next one alone; it is added
      as washed, if it is committed. */
  lemma ExecutedSealedBlock(env: Env, level: int, s: Light, cmd: string)
    requires cmd != "" && cmd[0] == 'b'
    ensures var (s', cmd') := LightExecuted(env, level, s, cmd);
            && s'.next == s.next && s'.previous == s.previous
            && if s'.chain == s.chain then cmd' == ""
               else
                 && cmd' == cmd && env.parseBlk(cmd[1..]).Some? && |s'.chain| == |s.chain| + 1
                 && s'.chain[..|s.chain|] == s.chain
                 && var b, sent := s'.chain[|s.chain|], env.parseBlk(cmd[1..]).value;
                    && b.number == sent.number && b.parentHash == sent.parentHash
                    && (level >= 2 ==> b.txs == sent.txs && s'.hs == s.hs)
                    && (level < 2 ==> AllNew(env.hash, s.hs, b.txs) && s'.hs == s.hs + Hashes(env.hash, sent.txs))
  {
    hide Washed, AllNew, Hashes;
    if env.parseBlk(cmd[1..]).Some? {
      WashedIs(env.hash, s.hs, env.parseBlk(cmd[1..]).value.txs);
    }
  }

  /** Block `k` of a chain sealed from `n` on: its number, and the parent it names. */
  ghost predicate Linked(env: Env, chain: seq<Blk>, n: nat, number: nat, previous: Hash, k: int)
    requires n <= k < |chain|
  {
    && chain[k].number == number + (k - n)
    && chain[k].parentHash == (if k == n then previous else env.blkHash(chain[k - 1]))
  }

  ghost predicate Links(env: Env, chain: seq<Blk>, n: nat, number: nat, previous: Hash) {
    forall k :: n <= k < |chain| ==> Linked(env, chain, n, number, previous, k)
  }

  lemma LinksAppend(env: Env, chain: seq<Blk>, n: nat, number: nat, previous: Hash, b: Blk)
    requires Links(env, chain, n, number, previous) && n <= |chain| && b.number == number + (|chain| - n)
    requires b.parentHash == (if |chain| == n then previous else env.blkHash(chain[|chain| - 1]))
    ensures Links(env, chain + [b], n, number, previous)
  {
    forall k | n <= k < |chain| + 1
      ensures Linked(env, chain + [b], n, number, previous, k)
    {
      if k < |chain| {
        assert Linked(env, chain, n, number, previous, k);
      }
    }
  }

  /** A light primary seals a chain: whatever batches it is given, and whichever of them are committed, its blocks have
      consecutive numbers and are linked by their hashes, and the next one will be, too. */
  lemma {:induction false} SealedChainLinks(env: Env, level: int, s: Light, cmds: seq<string>)
    requires forall i :: 0 <= i < |cmds| ==> cmds[i] == "" || cmds[i][0] != 'b'
    ensures var s', n := LightAfter(env, level, s, cmds), |s.chain|;
            && n <= |s'.chain| && s'.chain[..n] == s.chain && Links(env, s'.chain, n, s.next, s.previous)
            && s'.next == s.next + (|s'.chain| - n)
            && s'.previous == if |s'.chain| == n then s.previous else env.blkHash(s'.chain[|s'.chain| - 1])
  {
    hide LightExecuted;
    if cmds != [] {
      var before, cmd := cmds[..|cmds| - 1], cmds[|cmds| - 1];
      SealedChainLinks(env, level, s, before);
      var t := LightAfter(env, level, s, before);
      if cmd != "" && cmd[0] == 't' {
        SealedBlock(env, level, t, cmd);
        var t' := LightExecuted(env, level, t, cmd).0;
        if t'.chain != t.chain {
          var b := t'.chain[|t.chain|];
          assert t'.chain == t.chain + [b];
          LinksAppend(env, t.chain, |s.chain|, s.next, s.previous, b);
        }
      } else {
        IgnoredCommand(env, level, t, cmd);
      }
    }
  }

  lemma IgnoredCommand(env: Env, level: int, s: Light, cmd: string)
    requires cmd == "" || (cmd[0] != 'b' && cmd[0] != 't')
    ensures LightExecuted(env, level, s, cmd) == (s, "")
  {
  }
}
