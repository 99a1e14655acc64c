/** Executing and committing blocks (execManager.hpp, forPostExec.hpp). */
module BlockCommit {
  import opened Mempool
  import opened Options
  import opened Executors
  import opened WorldState

  datatype Receipt = Receipt(ok: bool, result: string)

  /** An executed block: a journal and a receipt for each transaction. */
  datatype ExecBlk = ExecBlk(number: nat, parentHash: Hash, txs: seq<Tx>, stateChanges: seq<seq<StateChange>>,
                             receipts: seq<Receipt>)

  /** What the constructor of `ExecBlk` insists on. */
  predicate Sized(b: ExecBlk) {
    |b.stateChanges| == |b.txs| && |b.receipts| == |b.txs|
  }

  /** `TxOnBlkInfo`. */
  datatype Info = Info(blkNumber: nat, onBlkId: nat)

  /** Hashing (hashes are their hexadecimal strings) and what is stored in the chain database. */
  datatype Format = Format(hash: (nat, nat) -> Hash,
                           writeInfo: Info -> string, parseInfo: string -> Option<Info>,
                           writeBlk: ExecBlk -> string, parseBlk: string -> Option<ExecBlk>)

  ghost predicate Readable(f: Format) {
    && (forall i :: f.parseInfo(f.writeInfo(i)) == Some(i))
    && (forall b :: f.parseBlk(f.writeBlk(b)) == Some(b))
  }

  // ----- Keys -----

  /** `lexical_cast<string>` of a number. */
  function Decimal(n: nat): (s: string)
    ensures s != ""
  {
    var digit := ['0' + (n % 10) as char];
    if n < 10 then digit else Decimal(n / 10) + digit
  }

  /** The number a string of decimal digits writes. */
  function Reads(s: string): int {
    if s == "" then 0 else 10 * Reads(s[..|s| - 1]) + (s[|s| - 1] as int - '0' as int)
  }

  /** A number is written in decimal digits, the most significant first and not zero unless it is the only one. */
  lemma {:induction false} DecimalReads(n: nat)
    ensures Reads(Decimal(n)) == n
    ensures forall i :: 0 <= i < |Decimal(n)| ==> '0' <= Decimal(n)[i] <= '9'
    ensures n >= 10 ==> Decimal(n)[0] != '0'
  {
    var s := Decimal(n);
    assert s[|s| - 1] == '0' + (n % 10) as char;
    if n >= 10 {
      DecimalReads(n / 10);
      assert s[..|s| - 1] == Decimal(n / 10);
      assert n / 10 < 10 ==> Decimal(n / 10) == ['0' + (n / 10 % 10) as char];
    } else {
      assert s[..|s| - 1] == "";
    }
  }

  lemma DecimalInjective(m: nat, n: nat)
    requires Decimal(m) == Decimal(n)
    ensures m == n
  {
    hide Decimal;
    DecimalReads(m);
    DecimalReads(n);
  }

  function TxKey(h: Hash): string {
    "/tx/" + h
  }

  function BlkKey(n: nat): string {
    "/blk/" + Decimal(n)
  }

  const NUMBER_KEY := "/other/blk_number"

  lemma KeysDiffer(g: Hash, h: Hash, m: nat, n: nat)
    ensures TxKey(g) != BlkKey(m) && TxKey(g) != NUMBER_KEY && BlkKey(m) != NUMBER_KEY
    ensures TxKey(g)[..4] == "/tx/" && TxKey(g)[4..] == g && BlkKey(m)[..5] == "/blk/" && BlkKey(m)[5..] == Decimal(m)
    ensures TxKey(g) == TxKey(h) ==> g == h
    ensures BlkKey(m) == BlkKey(n) ==> m == n
  {
    assert TxKey(g)[1] == 't' && BlkKey(m)[1] == 'b' && NUMBER_KEY[1] == 'o';
    assert TxKey(g)[4..] == g && TxKey(h)[4..] == h;
    assert BlkKey(m)[5..] == Decimal(m) && BlkKey(n)[5..] == Decimal(n);
    if BlkKey(m) == BlkKey(n) {
      DecimalInjective(m, n);
    }
  }

  // ----- Committing -----

  type ChainDB = map<string, string>

  /** The journals of the first `i` transactions, one after the other. */
  function Journals(b: ExecBlk, i: nat): seq<StateChange>
    requires i <= |b.stateChanges|
  {
    if i == 0 then [] else Journals(b, i - 1) + b.stateChanges[i - 1]
  }

  /** The chain database after the positions of the first `i` transactions have been recorded. */
  function Recorded(f: Format, db: ChainDB, b: ExecBlk, i: nat): ChainDB
    requires i <= |b.txs|
  {
    if i == 0 then db
    else Recorded(f, db, b, i - 1)[TxKey(HashOf(f.hash, b.txs[i - 1])) := f.writeInfo(Info(b.number, i - 1))]
  }

  function Committed(f: Format, db: ChainDB, b: ExecBlk): ChainDB {
    Recorded(f, db, b, |b.txs|)[BlkKey(b.number) := f.writeBlk(b)][NUMBER_KEY := Decimal(b.number)]
  }

  /** The journal and the output of a transaction, if it succeeds. */
  type Execution = Option<(seq<StateChange>, string)>

  /** Executing a transaction against a world, given how many contracts the process has created, which it counts on. */
  type TxExecutor = (StateDB, Tx, nat) -> (Execution, nat)

  /** How many contracts have been created before the transaction at `i`. */
  function Created(executeTx: TxExecutor, db: StateDB, txs: seq<Tx>, created: nat, i: nat): nat
    requires i <= |txs|
  {
    if i == 0 then created else executeTx(db, txs[i - 1], Created(executeTx, db, txs, created, i - 1)).1
  }

  /** What a block records of one execution: a failed one has an empty journal and a failed receipt. */
  predicate Records(r: Execution, journal: seq<StateChange>, receipt: Receipt) {
    if r.None? then journal == [] && receipt == Receipt(false, "")
    else journal == r.value.0 && receipt == Receipt(true, r.value.1)
  }

  /** One journal and one receipt for each of the first transactions. */
  ghost predicate Executing(executeTx: TxExecutor, db: StateDB, txs: seq<Tx>, created: nat,
                            journals: seq<seq<StateChange>>, receipts: seq<Receipt>) {
    && |journals| == |receipts| <= |txs|
    && forall i :: 0 <= i < |journals| ==>
         Records(executeTx(db, txs[i], Created(executeTx, db, txs, created, i)).0, journals[i], receipts[i])
  }

  lemma ExecuteOne(executeTx: TxExecutor, db: StateDB, txs: seq<Tx>, created: nat, journals: seq<seq<StateChange>>,
                   receipts: seq<Receipt>, journal: seq<StateChange>, receipt: Receipt)
    requires Executing(executeTx, db, txs, created, journals, receipts) && |journals| < |txs|
    requires var i := |journals|;
             Records(executeTx(db, txs[i], Created(executeTx, db, txs, created, i)).0, journal, receipt)
    ensures Executing(executeTx, db, txs, created, journals + [journal], receipts + [receipt])
  {
    hide Records, Created;
  }

  lemma NothingExecuted(executeTx: TxExecutor, db: StateDB, txs: seq<Tx>, created: nat)
    ensures Executing(executeTx, db, txs, created, [], [])
  {
  }

  class BlkExecutor {
    const f: Format
    const world: InRamWorldStorage
    const executeTx: TxExecutor
    const verify: Tx -> bool

    constructor (f: Format, world: InRamWorldStorage, executeTx: TxExecutor, verify: Tx -> bool)
      ensures this.f == f && this.world == world && this.executeTx == executeTx && this.verify == verify
    {
      this.f, this.world, this.executeTx, this.verify := f, world, executeTx, verify;
    }

    /** `executeBlk`: the verified transactions, each executed against the world before the block; only the count of
        contracts created is passed on from one to the next. */
    method ExecuteBlk(b: Blk, created: nat) returns (e: ExecBlk, created': nat)
      ensures Sized(e) && e.number == b.number && e.parentHash == b.parentHash && e.txs == Filtered(verify, b.txs)
      ensures Executing(executeTx, world.stateDB, e.txs, created, e.stateChanges, e.receipts)
      ensures created' == Created(executeTx, world.stateDB, e.txs, created, |e.txs|)
    {
      hide Executing;
      var txs := FilterTxs(verify, b.txs);
      var journals, receipts := [], [];
      created' := created;
      NothingExecuted(executeTx, world.stateDB, txs, created);
      for i := 0 to |txs|
        invariant |journals| == |receipts| == i && created' == Created(executeTx, world.stateDB, txs, created, i)
        invariant Executing(executeTx, world.stateDB, txs, created, journals, receipts)
      {
        var r := executeTx(world.stateDB, txs[i], created');
        var journal, receipt := [], Receipt(false, "");
        if r.0.Some? {
          journal, receipt := r.0.value.0, Receipt(true, r.0.value.1);
        }
        ExecuteOne(executeTx, world.stateDB, txs, created, journals, receipts, journal, receipt);
        journals, receipts, created' := journals + [journal], receipts + [receipt], r.1;
      }
      e := ExecBlk(b.number, b.parentHash, txs, journals, receipts);
    }

    /** `commitBlk`. */
    method CommitBlk(b: ExecBlk) returns (ok: bool)
      requires Sized(b)
      modifies world
      ensures ok && world.stateDB == Applied(old(world.stateDB), Journals(b, |b.txs|))
      ensures world.chainDB == Committed(f, old(world.chainDB), b)
    {
      for i := 0 to |b.txs|
        invariant world.stateDB == Applied(old(world.stateDB), Journals(b, i))
        invariant world.chainDB == Recorded(f, old(world.chainDB), b, i)
      {
        ok := world.SetInChainDB(TxKey(HashOf(f.hash, b.txs[i])), f.writeInfo(Info(b.number, i)));
        AppliedConcat(old(world.stateDB), Journals(b, i), b.stateChanges[i]);
        ok := world.ApplyJournalStateDB(b.stateChanges[i]);
        if !ok {
          return false;
        }
      }
      ok := world.SetInChainDB(BlkKey(b.number), f.writeBlk(b));
      if !ok {
        return false;
      }
      ok := world.SetInChainDB(NUMBER_KEY, Decimal(b.number));
    }
  }

  function Filtered(verify: Tx -> bool, txs: seq<Tx>): (r: seq<Tx>)
    ensures forall t :: t in r <==> t in txs && verify(t)
  {
    if txs == [] then []
    else
      var before, t := Filtered(verify, txs[..|txs| - 1]), txs[|txs| - 1];
      assert txs == txs[..|txs| - 1] + [t];
      if verify(t) then before + [t] else before
  }

  /** Filtering keeps order and multiplicity: it distributes over concatenation, and keeps a single transaction or
      not. */
  lemma {:induction false} FilteredConcat(verify: Tx -> bool, a: seq<Tx>, b: seq<Tx>)
    ensures Filtered(verify, a + b) == Filtered(verify, a) + Filtered(verify, b)
    decreases |b|
  {
    if b == [] {
      assert a + b == a;
    } else {
      FilteredConcat(verify, a, b[..|b| - 1]);
      assert (a + b)[..|a + b| - 1] == a + b[..|b| - 1];
    }
  }

  lemma {:induction false} FilteredCounts(verify: Tx -> bool, txs: seq<Tx>, t: Tx)
    ensures multiset(Filtered(verify, txs))[t] == if verify(t) then multiset(txs)[t] else 0
    ensures Filtered(verify, [t]) == if verify(t) then [t] else []
  {
    if txs != [] {
      FilteredCounts(verify, txs[..|txs| - 1], t);
      assert txs == txs[..|txs| - 1] + [txs[|txs| - 1]];
    }
    assert [t][..0] == [];
  }

  /** `filterTxs`. */
  method FilterTxs(verify: Tx -> bool, txs: seq<Tx>) returns (r: seq<Tx>)
    ensures r == Filtered(verify, txs)
  {
    r := [];
    for i := 0 to |txs|
      invariant r == Filtered(verify, txs[..i])
    {
      assert txs[..i + 1][..i] == txs[..i];
      if verify(txs[i]) {
        r := r + [txs[i]];
      }
    }
    assert txs[..|txs|] == txs;
  }

  // ----- Whole chains -----

  ghost predicate AllSized(blks: seq<ExecBlk>) {
    forall i :: 0 <= i < |blks| ==> Sized(blks[i])
  }

  /** The two databases after a run of commits, from a state and an empty chain. */
  ghost function StateAfter(start: StateDB, blks: seq<ExecBlk>): StateDB
    requires AllSized(blks)
  {
    if blks == [] then start
    else
      var b := blks[|blks| - 1];
      Applied(StateAfter(start, blks[..|blks| - 1]), Journals(b, |b.txs|))
  }

  function ChainAfter(f: Format, blks: seq<ExecBlk>): ChainDB {
    if blks == [] then map[] else Committed(f, ChainAfter(f, blks[..|blks| - 1]), blks[|blks| - 1])
  }

  /** A block as stored under its number. */
  function Stored(f: Format, db: ChainDB, n: nat): Option<ExecBlk> {
    if BlkKey(n) in db then f.parseBlk(db[BlkKey(n)]) else None
  }

  /** Replaying a list of blocks read back from the chain database: none if one is missing. */
  function Replayed(f: Format, db: ChainDB, start: StateDB, numbers: seq<nat>): Option<StateDB> {
    if numbers == [] then Some(start)
    else
      var before, b := Replayed(f, db, start, numbers[..|numbers| - 1]), Stored(f, db, numbers[|numbers| - 1]);
      if before.None? || b.None? || !Sized(b.value) then None
      else Some(Applied(before.value, Journals(b.value, |b.value.txs|)))
  }

  /** A transaction entry leads to a stored block that holds a transaction of that hash at that position, with its
      receipt. */
  ghost predicate EntryOk(f: Format, db: ChainDB, h: Hash) {
    TxKey(h) in db ==>
      var info := f.parseInfo(db[TxKey(h)]);
      && info.Some?
      && var b := Stored(f, db, info.value.blkNumber);
         && b.Some? && Sized(b.value) && info.value.onBlkId < |b.value.txs|
         && HashOf(f.hash, b.value.txs[info.value.onBlkId]) == h && info.value.onBlkId < |b.value.receipts|
  }

  // ----- What the chain database holds -----

  /** The last block committed with the number `n`. */
  function LastOf(blks: seq<ExecBlk>, n: nat): Option<ExecBlk> {
    if blks == [] then None
    else if blks[|blks| - 1].number == n then Some(blks[|blks| - 1])
    else LastOf(blks[..|blks| - 1], n)
  }

  /** The last position of hash `h` among the first `i` transactions of a block. */
  function LastPosition(f: Format, b: ExecBlk, i: nat, h: Hash): (r: Option<nat>)
    requires i <= |b.txs|
    ensures r.Some? ==> r.value < i && HashOf(f.hash, b.txs[r.value]) == h
    ensures r.None? ==> forall k :: 0 <= k < i ==> HashOf(f.hash, b.txs[k]) != h
  {
    if i == 0 then None else if HashOf(f.hash, b.txs[i - 1]) == h then Some(i - 1) else LastPosition(f, b, i - 1, h)
  }

  /** Where hash `h` was committed last. */
  function LastEntry(f: Format, blks: seq<ExecBlk>, h: Hash): Option<Info> {
    if blks == [] then None
    else
      var b := blks[|blks| - 1];
      var k := LastPosition(f, b, |b.txs|, h);
      if k.Some? then Some(Info(b.number, k.value)) else LastEntry(f, blks[..|blks| - 1], h)
  }

  /** Recording transactions leaves the blocks alone and sets each entry to the last position of its hash. */
  lemma {:induction false} RecordedIs(f: Format, db: ChainDB, b: ExecBlk, i: nat, h: Hash, n: nat)
    requires i <= |b.txs|
    ensures var db', k := Recorded(f, db, b, i), LastPosition(f, b, i, h);
            && (BlkKey(n) in db' <==> BlkKey(n) in db) && (BlkKey(n) in db ==> db'[BlkKey(n)] == db[BlkKey(n)])
            && (TxKey(h) in db' <==> k.Some? || TxKey(h) in db)
            && (k.Some? ==> db'[TxKey(h)] == f.writeInfo(Info(b.number, k.value)))
            && (k.None? && TxKey(h) in db ==> db'[TxKey(h)] == db[TxKey(h)])
  {
    hide TxKey, BlkKey, HashOf;
    if i > 0 {
      RecordedIs(f, db, b, i - 1, h, n);
      KeysDiffer(HashOf(f.hash, b.txs[i - 1]), h, n, n);
    }
  }

  lemma CommittedIs(f: Format, db: ChainDB, b: ExecBlk, h: Hash, n: nat)
    requires Readable(f)
    ensures var db' := Committed(f, db, b);
            && Stored(f, db', b.number) == Some(b)
            && (n != b.number ==> Stored(f, db', n) == Stored(f, db, n))
            && (TxKey(h) in db' <==> TxKey(h) in Recorded(f, db, b, |b.txs|))
            && (TxKey(h) in db' ==> db'[TxKey(h)] == Recorded(f, db, b, |b.txs|)[TxKey(h)])
            && NUMBER_KEY in db' && db'[NUMBER_KEY] == Decimal(b.number)
  {
    hide TxKey, BlkKey, HashOf, Decimal, Recorded;
    KeysDiffer(h, h, b.number, n);
    KeysDiffer(h, h, n, b.number);
    RecordedIs(f, db, b, |b.txs|, h, n);
  }

  /** Under a number the chain database holds the last block committed with it. */
  lemma {:induction false} StoredIsLast(f: Format, blks: seq<ExecBlk>, n: nat)
    requires Readable(f)
    ensures Stored(f, ChainAfter(f, blks), n) == LastOf(blks, n)
  {
    hide Committed;
    if blks != [] {
      StoredIsLast(f, blks[..|blks| - 1], n);
      CommittedIs(f, ChainAfter(f, blks[..|blks| - 1]), blks[|blks| - 1], "", n);
    }
  }

  /** The number entry holds, in decimal, the number of the block committed last, whatever it is. */
  lemma NumberIsLast(f: Format, blks: seq<ExecBlk>)
    requires Readable(f) && blks != []
    ensures var db := ChainAfter(f, blks);
            "/other/blk_number" in db && Reads(db["/other/blk_number"]) == blks[|blks| - 1].number
  {
    hide Committed, Decimal, Reads;
    CommittedIs(f, ChainAfter(f, blks[..|blks| - 1]), blks[|blks| - 1], "", 0);
    DecimalReads(blks[|blks| - 1].number);
  }

  /** Under a hash it holds where that was committed last. */
  lemma {:induction false} EntryIsLast(f: Format, blks: seq<ExecBlk>, h: Hash)
    requires Readable(f)
    ensures var db, e := ChainAfter(f, blks), LastEntry(f, blks, h);
            (TxKey(h) in db <==> e.Some?) && (e.Some? ==> db[TxKey(h)] == f.writeInfo(e.value))
  {
    hide Committed, Recorded, TxKey, HashOf;
    if blks != [] {
      var before, b := blks[..|blks| - 1], blks[|blks| - 1];
      EntryIsLast(f, before, h);
      CommittedIs(f, ChainAfter(f, before), b, h, 0);
      RecordedIs(f, ChainAfter(f, before), b, |b.txs|, h, 0);
    }
  }

  // ----- Reading back -----

  /** Blocks that share a number are the same. */
  ghost predicate Unambiguous(blks: seq<ExecBlk>) {
    forall i, j :: 0 <= i < j < |blks| && blks[i].number == blks[j].number ==> blks[i] == blks[j]
  }

  lemma {:induction false} LastIsOne(blks: seq<ExecBlk>, i: nat) returns (k: nat)
    requires i < |blks|
    ensures i <= k < |blks| && blks[k].number == blks[i].number && LastOf(blks, blks[i].number) == Some(blks[k])
    decreases |blks|
  {
    k := |blks| - 1;
    if blks[k].number != blks[i].number {
      k := LastIsOne(blks[..|blks| - 1], i);
    }
  }

  /** Every committed block is read back under its number if and only if no two different blocks share one. */
  lemma ReadBackIff(f: Format, blks: seq<ExecBlk>)
    requires Readable(f)
    ensures (forall i :: 0 <= i < |blks| ==> Stored(f, ChainAfter(f, blks), blks[i].number) == Some(blks[i])) <==>
              Unambiguous(blks)
  {
    hide ChainAfter, Stored, LastOf;
    forall i | 0 <= i < |blks|
      ensures Stored(f, ChainAfter(f, blks), blks[i].number) == LastOf(blks, blks[i].number)
    {
      StoredIsLast(f, blks, blks[i].number);
    }
    if Unambiguous(blks) {
      forall i | 0 <= i < |blks|
        ensures LastOf(blks, blks[i].number) == Some(blks[i])
      {
        var k := LastIsOne(blks, i);
      }
    }
  }

  /** The entry of `h` leads to its transaction if and only if the last block with the number it names has, at the
      position it names, a transaction with that hash. */
  lemma EntryLeadsIff(f: Format, blks: seq<ExecBlk>, h: Hash)
    requires Readable(f) && AllSized(blks)
    ensures EntryOk(f, ChainAfter(f, blks), h) <==>
              var e := LastEntry(f, blks, h);
              e.Some? ==>
                && LastOf(blks, e.value.blkNumber).Some?
                && var b := LastOf(blks, e.value.blkNumber).value;
                   e.value.onBlkId < |b.txs| && HashOf(f.hash, b.txs[e.value.onBlkId]) == h
  {
    hide ChainAfter, Stored, TxKey, HashOf, LastEntry, LastOf;
    EntryIsLast(f, blks, h);
    var e := LastEntry(f, blks, h);
    if e.Some? {
      StoredIsLast(f, blks, e.value.blkNumber);
      LastSized(blks, e.value.blkNumber);
    }
  }

  lemma {:induction false} LastSized(blks: seq<ExecBlk>, n: nat)
    requires AllSized(blks)
    ensures LastOf(blks, n).Some? ==> Sized(LastOf(blks, n).value)
  {
    if blks != [] {
      LastSized(blks[..|blks| - 1], n);
    }
  }

  lemma {:induction false} EntryFrom(f: Format, blks: seq<ExecBlk>, h: Hash) returns (i: nat)
    requires LastEntry(f, blks, h).Some?
    ensures var e := LastEntry(f, blks, h).value;
            && i < |blks| && blks[i].number == e.blkNumber && e.onBlkId < |blks[i].txs|
            && HashOf(f.hash, blks[i].txs[e.onBlkId]) == h
  {
    hide HashOf;
    i := |blks| - 1;
    if LastPosition(f, blks[i], |blks[i].txs|, h).None? {
      i := EntryFrom(f, blks[..|blks| - 1], h);
    }
  }

  /** So with unambiguous numbers every entry leads to its transaction and receipt. */
  lemma EntriesLead(f: Format, blks: seq<ExecBlk>, h: Hash)
    requires Readable(f) && AllSized(blks) && Unambiguous(blks)
    ensures EntryOk(f, ChainAfter(f, blks), h)
  {
    hide ChainAfter, Stored, TxKey, HashOf, LastEntry, LastOf, EntryOk;
    EntryLeadsIff(f, blks, h);
    if LastEntry(f, blks, h).Some? {
      var i := EntryFrom(f, blks, h);
      var k := LastIsOne(blks, i);
    }
  }

  /** And every transaction committed has an entry. */
  lemma {:induction false} EntriesComplete(f: Format, blks: seq<ExecBlk>, i: nat, k: nat)
    requires Readable(f) && i < |blks| && k < |blks[i].txs|
    ensures TxKey(HashOf(f.hash, blks[i].txs[k])) in ChainAfter(f, blks)
    decreases |blks|
  {
    hide Committed, Recorded, HashOf, TxKey;
    var n, h := |blks| - 1, HashOf(f.hash, blks[i].txs[k]);
    var db := ChainAfter(f, blks[..n]);
    CommittedIs(f, db, blks[n], h, 0);
    RecordedIs(f, db, blks[n], |blks[n].txs|, h, 0);
    if i < n {
      EntriesComplete(f, blks[..n], i, k);
    }
  }

  // ----- Replay -----

  ghost function Numbers(blks: seq<ExecBlk>): seq<nat> {
    seq(|blks|, i requires 0 <= i < |blks| => blks[i].number)
  }

  lemma LastExists(blks: seq<ExecBlk>, i: nat)
    requires AllSized(blks) && i < |blks|
    ensures LastOf(blks, blks[i].number).Some? && Sized(LastOf(blks, blks[i].number).value)
  {
    hide LastOf, Sized;
    var k := LastIsOne(blks, i);
  }

  /** The first `i` blocks replayed with the last block of each number in place of the block itself. */
  ghost function FoldLast(start: StateDB, blks: seq<ExecBlk>, i: nat): StateDB
    requires AllSized(blks) && i <= |blks|
  {
    if i == 0 then start
    else
      LastExists(blks, i - 1);
      var b := LastOf(blks, blks[i - 1].number).value;
      Applied(FoldLast(start, blks, i - 1), Journals(b, |b.txs|))
  }

  lemma {:induction false} ReplayPrefix(f: Format, start: StateDB, blks: seq<ExecBlk>, i: nat)
    requires Readable(f) && AllSized(blks) && i <= |blks|
    ensures Replayed(f, ChainAfter(f, blks), start, Numbers(blks[..i])) == Some(FoldLast(start, blks, i))
    decreases i
  {
    hide Stored, ChainAfter, Journals, LastOf;
    if i > 0 {
      ReplayPrefix(f, start, blks, i - 1);
      LastExists(blks, i - 1);
      StoredIsLast(f, blks, blks[i - 1].number);
      assert Numbers(blks[..i])[..i - 1] == Numbers(blks[..i - 1]);
    }
  }

  /** Replaying any chain from the chain database folds, for each number in turn, the journals of the last block
      committed with it; the last number recorded is that of the last block. */
  lemma ReplayFoldsLast(f: Format, start: StateDB, blks: seq<ExecBlk>)
    requires Readable(f) && AllSized(blks)
    ensures Replayed(f, ChainAfter(f, blks), start, Numbers(blks)) == Some(FoldLast(start, blks, |blks|))
    ensures blks != [] ==>
              NUMBER_KEY in ChainAfter(f, blks) && ChainAfter(f, blks)[NUMBER_KEY] == Decimal(blks[|blks| - 1].number)
  {
    hide Stored, Journals, Committed, Replayed, Numbers, FoldLast;
    ReplayPrefix(f, start, blks, |blks|);
    assert blks[..|blks|] == blks;
    if blks != [] {
      CommittedIs(f, ChainAfter(f, blks[..|blks| - 1]), blks[|blks| - 1], "", 0);
    }
  }

  lemma {:induction false} FoldIsState(start: StateDB, blks: seq<ExecBlk>, i: nat)
    requires AllSized(blks) && Unambiguous(blks) && i <= |blks|
    ensures FoldLast(start, blks, i) == StateAfter(start, blks[..i])
    decreases i
  {
    hide Journals, Applied, LastOf;
    if i > 0 {
      FoldIsState(start, blks, i - 1);
      var k := LastIsOne(blks, i - 1);
      assert blks[..i][..i - 1] == blks[..i - 1];
    }
  }

  /** Chain replay: with unambiguous numbers the state database equals the in-order fold of the journals in the blocks
      stored in the chain database. */
  lemma ChainReplays(f: Format, start: StateDB, blks: seq<ExecBlk>)
    requires Readable(f) && AllSized(blks) && Unambiguous(blks)
    ensures Replayed(f, ChainAfter(f, blks), start, Numbers(blks)) == Some(StateAfter(start, blks))
  {
    hide ChainAfter, Replayed, Numbers, FoldLast, StateAfter;
    ReplayFoldsLast(f, start, blks);
    FoldIsState(start, blks, |blks|);
    assert blks[..|blks|] == blks;
  }

  /** Otherwise a replay can miss what a block did: the first of these two blocks sets a key, the second, with the same
      number, does nothing, and replaying the chain leaves the key unset. */
  lemma ReuseLosesBlock(f: Format)
    requires Readable(f)
    ensures var a := ExecBlk(1, "", [Tx(0, 0, 0, "")], [[StateChange(false, "k", "v")]], [Receipt(true, "")]);
            var blks := [a, ExecBlk(1, "", [], [], [])];
            && AllSized(blks) && StateAfter(map[], blks) == map["k" := "v"]
            && Replayed(f, ChainAfter(f, blks), map[], Numbers(blks)) == Some(map[])
  {
    hide ChainAfter, Replayed, Numbers, StateAfter, Journals, Applied, FoldLast, LastOf;
    var a := ExecBlk(1, "", [Tx(0, 0, 0, "")], [[StateChange(false, "k", "v")]], [Receipt(true, "")]);
    var b := ExecBlk(1, "", [], [], []);
    assert [a, b] == [a] + [b] && [a] == [] + [a];
    StateAppend(map[], [], a);
    StateAppend(map[], [a], b);
    FoldReused(map[], a, b);
    NoJournal(b);
    OneSet(a);
    AppliedNothing(map[]);
    AppliedNothing(map["k" := "v"]);
    ReplayFoldsLast(f, map[], [a, b]);
  }

  /** Of two blocks with one number the second is replayed twice. */
  lemma FoldReused(start: StateDB, a: ExecBlk, b: ExecBlk)
    requires Sized(a) && Sized(b) && a.number == b.number
    ensures AllSized([a, b])
    ensures FoldLast(start, [a, b], 2) == Applied(Applied(start, Journals(b, |b.txs|)), Journals(b, |b.txs|))
  {
    hide Journals, Applied;
    assert LastOf([a, b], b.number) == Some(b);
    assert FoldLast(start, [a, b], 1) == Applied(FoldLast(start, [a, b], 0), Journals(b, |b.txs|));
  }

  lemma OneSet(a: ExecBlk)
    requires |a.txs| == 1 && a.stateChanges == [[StateChange(false, "k", "v")]]
    ensures Applied(map[], Journals(a, 1)) == map["k" := "v"]
  {
    var c := StateChange(false, "k", "v");
    assert Journals(a, 0) == [] && Journals(a, 1) == [] + [c] == [c];
    assert [c][..0] == [];
    AppliedNothing(map[]);
  }

  lemma StateAppend(start: StateDB, blks: seq<ExecBlk>, b: ExecBlk)
    requires AllSized(blks) && Sized(b)
    ensures AllSized(blks + [b])
    ensures StateAfter(start, blks + [b]) == Applied(StateAfter(start, blks), Journals(b, |b.txs|))
    ensures StateAfter(start, []) == start
  {
    assert (blks + [b])[..|blks|] == blks;
  }

  lemma NoJournal(b: ExecBlk)
    ensures Journals(b, 0) == []
  {
  }

  lemma AppliedNothing(db: StateDB)
    ensures Applied(db, []) == db
  {
  }
}
