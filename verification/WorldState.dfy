/** The state database, the host overlay a transaction runs against, and the journal it leaves (storageManager.hpp,
    evmExecutor.hpp). */
module WorldState {
  import opened Options

  type Address = nat
  type Word = nat

  /** A contract account. */
  datatype Acn = Acn(nonce: nat, code: string, storage: map<Word, Word>)

  const EMPTY := Acn(0, "", map[])

  datatype StateChange = StateChange(del: bool, k: string, v: string)

  /** How addresses and accounts are written in the state database. */
  datatype Codec = Codec(name: Address -> string, write: Acn -> string, parse: string -> Option<Acn>)

  ghost predicate Faithful(codec: Codec) {
    && (forall a, b :: codec.name(a) == codec.name(b) ==> a == b)
    && (forall acn :: codec.parse(codec.write(acn)) == Some(acn))
  }

  type StateDB = map<string, string>

  // ----- The state database -----

  function AppliedOne(db: StateDB, c: StateChange): StateDB {
    if c.del then db - {c.k} else db[c.k := c.v]
  }

  /** A journal, applied in order. */
  function Applied(db: StateDB, j: seq<StateChange>): StateDB {
    if j == [] then db else AppliedOne(Applied(db, j[..|j| - 1]), j[|j| - 1])
  }

  lemma {:induction false} AppliedConcat(db: StateDB, i: seq<StateChange>, j: seq<StateChange>)
    ensures Applied(db, i + j) == Applied(Applied(db, i), j)
    decreases |j|
  {
    if j == [] {
      assert i + j == i;
    } else {
      AppliedConcat(db, i, j[..|j| - 1]);
      assert (i + j)[..|i + j| - 1] == i + j[..|j| - 1];
    }
  }

  /** `getAcn`. */
  function Lookup(codec: Codec, db: StateDB, a: Address): Option<Acn> {
    if codec.name(a) in db then codec.parse(db[codec.name(a)]) else None
  }

  class InRamWorldStorage {
    var stateDB: StateDB
    var chainDB: map<string, string>

    constructor ()
      ensures stateDB == map[] && chainDB == map[]
    {
      stateDB, chainDB := map[], map[];
    }

    method SetInChainDB(k: string, v: string) returns (ok: bool)
      modifies this`chainDB
      ensures ok && chainDB == old(chainDB)[k := v]
    {
      chainDB := chainDB[k := v];
      return true;
    }

    /** `applyJournalStateDB`. */
    method ApplyJournalStateDB(j: seq<StateChange>) returns (ok: bool)
      modifies this`stateDB
      ensures ok && stateDB == Applied(old(stateDB), j)
    {
      for i := 0 to |j|
        invariant stateDB == Applied(old(stateDB), j[..i])
      {
        assert j[..i + 1][..i] == j[..i];
        if j[i].del {
          stateDB := stateDB - {j[i].k};
        } else {
          stateDB := stateDB[j[i].k := j[i].v];
        }
      }
      assert j[..|j|] == j;
      return true;
    }
  }

  // ----- The overlay -----

  /** The accounts held in memory and those that have self-destructed. */
  datatype Host = Host(accounts: map<Address, Acn>, dead: set<Address>)

  /** The account a contract sees at an address. */
  function Seen(codec: Codec, db: StateDB, h: Host, a: Address): Option<Acn> {
    if a in h.dead then None else if a in h.accounts then Some(h.accounts[a]) else Lookup(codec, db, a)
  }

  /** A storage lookup: missing accounts and missing keys read as zero. */
  function StorageAt(acn: Option<Acn>, key: Word): Word {
    if acn.Some? && key in acn.value.storage then acn.value.storage[key] else 0
  }

  function Written(acn: Option<Acn>, key: Word, value: Word): Acn {
    var from := if acn.Some? then acn.value else EMPTY;
    from.(storage := from.storage[key := value])
  }

  class WeakEvmHost {
    const codec: Codec
    const world: StateDB
    var accounts: map<Address, Acn>
    var deadAcn: set<Address>

    ghost function View(): Host
      reads this
    {
      Host(accounts, deadAcn)
    }

    constructor (codec: Codec, world: StateDB)
      ensures this.codec == codec && this.world == world && View() == Host(map[], {})
    {
      this.codec, this.world, accounts, deadAcn := codec, world, map[], {};
    }

    /** `tryAddAcnFromWorldState`: fetching an account that is not held yet cannot be noticed. */
    method TryAddAcnFromWorldState(a: Address) returns (ok: bool)
      requires a !in accounts
      modifies this`accounts
      ensures View() == Fetched(codec, world, old(View()), a) && (ok <==> a in accounts)
      ensures forall b :: Seen(codec, world, View(), b) == Seen(codec, world, old(View()), b)
    {
      var v := Lookup(codec, world, a);
      if v.Some? {
        accounts := accounts[a := v.value];
      }
      return v.Some?;
    }

    /** `account_exists`. */
    method AccountExists(a: Address) returns (b: bool)
      ensures b <==> Seen(codec, world, View(), a).Some?
    {
      if a in deadAcn {
        return false;
      }
      if a in accounts {
        return true;
      }
      return Lookup(codec, world, a).Some?;
    }

    /** `get_storage`. */
    method GetStorage(a: Address, key: Word) returns (v: Word)
      ensures v == StorageAt(Seen(codec, world, View(), a), key)
    {
      var present := AccountExists(a);
      if !present {
        return 0;
      }
      if a !in accounts {
        var acn := Lookup(codec, world, a).value;
        return if key in acn.storage then acn.storage[key] else 0;
      }
      return if key in accounts[a].storage then accounts[a].storage[key] else 0;
    }

    /** `set_storage`: creates the account when there is none. */
    method SetStorage(a: Address, key: Word, value: Word) returns (deleted: bool)
      modifies this`accounts
      ensures View() == Applying(codec, world, old(View()), SetStorageOp(a, key, value)) && (deleted <==> value == 0)
    {
      if a !in accounts {
        var _ := TryAddAcnFromWorldState(a);
      }
      accounts := accounts[a := Written(if a in accounts then Some(accounts[a]) else None, key, value)];
      return value == 0;
    }

    /** `selfdestruct`. */
    method Selfdestruct(a: Address)
      modifies this`deadAcn
      ensures View() == Applying(codec, world, old(View()), SelfdestructOp(a))
    {
      deadAcn := deadAcn + {a};
    }

    /** The end of `handleCreate`: the code is put on a new account. */
    method Create(a: Address, nonce: nat, code: string)
      modifies this`accounts
      ensures View() == Applying(codec, world, old(View()), CreateOp(a, nonce, code))
    {
      accounts := accounts[a := Acn(nonce, code, map[])];
    }

    /** The start of `handleCall`: an account that exists is fetched. */
    method FetchForCall(a: Address) returns (ok: bool)
      modifies this`accounts
      ensures View() == (if ok then Applying(codec, world, old(View()), FetchOp(a)) else old(View()))
      ensures ok <==> Seen(codec, world, old(View()), a).Some?
    {
      ok := AccountExists(a);
      if ok && a !in accounts {
        var _ := TryAddAcnFromWorldState(a);
      }
    }

    /** `getStateChanges`: the live accounts held are set, in any order, then the dead ones deleted, in any order. */
    method GetStateChanges() returns (j: seq<StateChange>, ghost held: seq<Address>, ghost graves: seq<Address>)
      ensures Lists(held, accounts.Keys) && Lists(graves, deadAcn) && j == Journal(codec, View(), held, graves)
      ensures Faithful(codec) ==> forall a :: Lookup(codec, Applied(world, j), a) == Seen(codec, world, View(), a)
    {
      j, held, graves := [], [], [];
      var todo := accounts.Keys;
      while todo != {}
        invariant todo <= accounts.Keys && Lists(held, accounts.Keys - todo) && j == Sets(codec, View(), held)
        decreases todo
      {
        var a :| a in todo;
        if a !in deadAcn {
          j := j + [StateChange(false, codec.name(a), codec.write(accounts[a]))];
        }
        assert (held + [a])[..|held|] == held;
        held := held + [a];
        todo := todo - {a};
      }
      ghost var sets := j;
      todo := deadAcn;
      while todo != {}
        invariant todo <= deadAcn && Lists(graves, deadAcn - todo) && j == sets + Dels(codec, graves)
        decreases todo
      {
        var a :| a in todo;
        j := j + [StateChange(true, codec.name(a), "")];
        assert (graves + [a])[..|graves|] == graves;
        graves := graves + [a];
        todo := todo - {a};
      }
      forall a | Faithful(codec)
        ensures Lookup(codec, Applied(world, j), a) == Seen(codec, world, View(), a)
      {
        JournalShowsOverlay(codec, world, View(), held, graves, a);
      }
    }
  }

  // ----- The journal -----

  ghost predicate Lists(order: seq<Address>, s: set<Address>) {
    forall a :: a in order <==> a in s
  }

  function Sets(codec: Codec, h: Host, held: seq<Address>): seq<StateChange>
    requires forall a :: a in held ==> a in h.accounts
  {
    if held == [] then []
    else
      var before, a := Sets(codec, h, held[..|held| - 1]), held[|held| - 1];
      if a in h.dead then before else before + [StateChange(false, codec.name(a), codec.write(h.accounts[a]))]
  }

  function Dels(codec: Codec, graves: seq<Address>): seq<StateChange> {
    if graves == [] then []
    else Dels(codec, graves[..|graves| - 1]) + [StateChange(true, codec.name(graves[|graves| - 1]), "")]
  }

  function Journal(codec: Codec, h: Host, held: seq<Address>, graves: seq<Address>): seq<StateChange>
    requires forall a :: a in held ==> a in h.accounts
  {
    Sets(codec, h, held) + Dels(codec, graves)
  }

  /** What the sets leave under a key. */
  lemma {:induction false} SetsAt(codec: Codec, db: StateDB, h: Host, held: seq<Address>, a: Address)
    requires Faithful(codec) && forall b :: b in held ==> b in h.accounts
    ensures var k, db' := codec.name(a), Applied(db, Sets(codec, h, held));
            if a in held && a !in h.dead then k in db' && db'[k] == codec.write(h.accounts[a])
            else (k in db' <==> k in db) && (k in db ==> db'[k] == db[k])
  {
    if held != [] {
      var before, b := held[..|held| - 1], held[|held| - 1];
      assert held == before + [b];
      SetsAt(codec, db, h, before, a);
      var c := StateChange(false, codec.name(b), codec.write(h.accounts[b]));
      assert (Sets(codec, h, before) + [c])[..|Sets(codec, h, before)|] == Sets(codec, h, before);
    }
  }

  lemma {:induction false} DelsAt(codec: Codec, db: StateDB, graves: seq<Address>, a: Address)
    requires Faithful(codec)
    ensures var k, db' := codec.name(a), Applied(db, Dels(codec, graves));
            (k in db' <==> k in db && a !in graves) && (k in db' ==> db'[k] == db[k])
  {
    if graves != [] {
      var before, b := graves[..|graves| - 1], graves[|graves| - 1];
      assert graves == before + [b];
      DelsAt(codec, db, before, a);
      var c := StateChange(true, codec.name(b), "");
      assert (Dels(codec, before) + [c])[..|Dels(codec, before)|] == Dels(codec, before);
    }
  }

  /** Applying the journal, whatever order the maps are walked in, makes the database show what the overlay showed, for
      every address; hence account existence and every storage lookup agree. */
  lemma JournalShowsOverlay(codec: Codec, db: StateDB, h: Host, held: seq<Address>, graves: seq<Address>, a: Address)
    requires Faithful(codec) && Lists(held, h.accounts.Keys) && Lists(graves, h.dead)
    ensures Lookup(codec, Applied(db, Journal(codec, h, held, graves)), a) == Seen(codec, db, h, a)
  {
    var sets := Sets(codec, h, held);
    AppliedConcat(db, sets, Dels(codec, graves));
    SetsAt(codec, db, h, held, a);
    DelsAt(codec, Applied(db, sets), graves, a);
  }

  // ----- Whole transactions -----

  /** What changes a host. */
  datatype Op =
    | SetStorageOp(a: Address, key: Word, value: Word)
    | SelfdestructOp(a: Address)
    | CreateOp(a: Address, nonce: nat, code: string)
    | FetchOp(a: Address)

  function Fetched(codec: Codec, db: StateDB, h: Host, a: Address): Host {
    var v := Lookup(codec, db, a);
    if a !in h.accounts && v.Some? then h.(accounts := h.accounts[a := v.value]) else h
  }

  function Applying(codec: Codec, db: StateDB, h: Host, op: Op): Host {
    match op
    case SetStorageOp(a, key, value) =>
      var f := Fetched(codec, db, h, a);
      f.(accounts := f.accounts[a := Written(if a in f.accounts then Some(f.accounts[a]) else None, key, value)])
    case SelfdestructOp(a) => h.(dead := h.dead + {a})
    case CreateOp(a, nonce, code) => h.(accounts := h.accounts[a := Acn(nonce, code, map[])])
    case FetchOp(a) => Fetched(codec, db, h, a)
  }

  function HostAfter(codec: Codec, db: StateDB, ops: seq<Op>): Host {
    if ops == [] then Host(map[], {}) else Applying(codec, db, HostAfter(codec, db, ops[..|ops| - 1]), ops[|ops| - 1])
  }

  /** The account at `a`, dead or not, if every operation went straight to the world. */
  function Direct(codec: Codec, db: StateDB, ops: seq<Op>, a: Address): Option<Acn> {
    if ops == [] then Lookup(codec, db, a)
    else
      var before := Direct(codec, db, ops[..|ops| - 1], a);
      match ops[|ops| - 1]
      case SetStorageOp(b, key, value) => if b == a then Some(Written(before, key, value)) else before
      case CreateOp(b, nonce, code) => if b == a then Some(Acn(nonce, code, map[])) else before
      case SelfdestructOp(_) => before
      case FetchOp(_) => before
  }

  ghost predicate Destroyed(ops: seq<Op>, a: Address) {
    SelfdestructOp(a) in ops
  }

  lemma {:induction false} HostIsDirect(codec: Codec, db: StateDB, ops: seq<Op>, a: Address)
    ensures var h := HostAfter(codec, db, ops);
            && (a in h.dead <==> Destroyed(ops, a))
            && Direct(codec, db, ops, a) == if a in h.accounts then Some(h.accounts[a]) else Lookup(codec, db, a)
  {
    if ops != [] {
      var before, op := ops[..|ops| - 1], ops[|ops| - 1];
      assert ops == before + [op];
      HostIsDirect(codec, db, before, a);
    }
  }

  /** Overlay refinement: after any sequence of host operations, the database with the journal applied holds what the
      operations would have left had they gone straight to it, self-destructed accounts absent. */
  lemma OverlayRefines(codec: Codec, db: StateDB, ops: seq<Op>, held: seq<Address>, graves: seq<Address>, a: Address,
                       key: Word)
    requires Faithful(codec)
    requires var h := HostAfter(codec, db, ops); Lists(held, h.accounts.Keys) && Lists(graves, h.dead)
    ensures var h := HostAfter(codec, db, ops);
            var db' := Applied(db, Journal(codec, h, held, graves));
            && Lookup(codec, db', a) == (if Destroyed(ops, a) then None else Direct(codec, db, ops, a))
            && (Lookup(codec, db', a).Some? <==> Seen(codec, db, h, a).Some?)
            && StorageAt(Lookup(codec, db', a), key) == StorageAt(Seen(codec, db, h, a), key)
  {
    hide Journal, HostAfter, Direct;
    HostIsDirect(codec, db, ops, a);
    JournalShowsOverlay(codec, db, HostAfter(codec, db, ops), held, graves, a);
  }

  /** The order in which the maps are walked does not matter. */
  lemma JournalOrder(codec: Codec, db: StateDB, h: Host, held: seq<Address>, graves: seq<Address>,
                     held': seq<Address>, graves': seq<Address>)
    requires Faithful(codec) && Lists(held, h.accounts.Keys) && Lists(graves, h.dead)
    requires Lists(held', h.accounts.Keys) && Lists(graves', h.dead)
    ensures Applied(db, Journal(codec, h, held, graves)) == Applied(db, Journal(codec, h, held', graves'))
  {
    var one, two := Applied(db, Journal(codec, h, held, graves)), Applied(db, Journal(codec, h, held', graves'));
    AppliedConcat(db, Sets(codec, h, held), Dels(codec, graves));
    AppliedConcat(db, Sets(codec, h, held'), Dels(codec, graves'));
    forall k: string
      ensures k in one <==> k in two
      ensures k in one ==> one[k] == two[k]
    {
      if a :| codec.name(a) == k {
        SetsAt(codec, db, h, held, a);
        SetsAt(codec, db, h, held', a);
        DelsAt(codec, Applied(db, Sets(codec, h, held)), graves, a);
        DelsAt(codec, Applied(db, Sets(codec, h, held')), graves', a);
      } else {
        SetsElsewhere(codec, db, h, held, k);
        SetsElsewhere(codec, db, h, held', k);
        DelsElsewhere(codec, Applied(db, Sets(codec, h, held)), graves, k);
        DelsElsewhere(codec, Applied(db, Sets(codec, h, held')), graves', k);
      }
    }
  }

  lemma {:induction false} SetsElsewhere(codec: Codec, db: StateDB, h: Host, held: seq<Address>, k: string)
    requires (forall b :: b in held ==> b in h.accounts) && forall a :: codec.name(a) != k
    ensures var db' := Applied(db, Sets(codec, h, held)); (k in db' <==> k in db) && (k in db ==> db'[k] == db[k])
  {
    if held != [] {
      var before, b := held[..|held| - 1], held[|held| - 1];
      SetsElsewhere(codec, db, h, before, k);
      var c := StateChange(false, codec.name(b), codec.write(h.accounts[b]));
      assert (Sets(codec, h, before) + [c])[..|Sets(codec, h, before)|] == Sets(codec, h, before);
    }
  }

  lemma {:induction false} DelsElsewhere(codec: Codec, db: StateDB, graves: seq<Address>, k: string)
    requires forall a :: codec.name(a) != k
    ensures var db' := Applied(db, Dels(codec, graves)); (k in db' <==> k in db) && (k in db ==> db'[k] == db[k])
  {
    if graves != [] {
      var before, b := graves[..|graves| - 1], graves[|graves| - 1];
      DelsElsewhere(codec, db, before, k);
      var c := StateChange(true, codec.name(b), "");
      assert (Dels(codec, before) + [c])[..|Dels(codec, before)|] == Dels(codec, before);
    }
  }

  // ----- What the operations mean -----

  /** The storage, nonce and code a contract sees at an address. */
  function NonceAt(acn: Option<Acn>): nat { if acn.Some? then acn.value.nonce else 0 }

  function CodeAt(acn: Option<Acn>): string { if acn.Some? then acn.value.code else "" }

  /** Setting a storage key: the key of a live account reads as the value, every other key and every other account as
      before; the account exists, with the nonce and the code it had, or none if it is new. */
  lemma SetStorageLaw(codec: Codec, db: StateDB, h: Host, a: Address, key: Word, value: Word, b: Address, k: Word)
    ensures var h' := Applying(codec, db, h, SetStorageOp(a, key, value));
            var before, after := Seen(codec, db, h, b), Seen(codec, db, h', b);
            && (b != a || b in h.dead ==> after == before)
            && (b == a && b !in h.dead ==>
                  after.Some? && NonceAt(after) == NonceAt(before) && CodeAt(after) == CodeAt(before))
            && (b == a && b !in h.dead && k == key ==> StorageAt(after, k) == value)
            && (b != a || k != key ==> StorageAt(after, k) == StorageAt(before, k))
  {
  }

  /** Self-destruction removes an account for good, creation gives it code and an empty storage, and fetching it
      cannot be noticed; none of them touches another account. */
  lemma OtherOpsLaw(codec: Codec, db: StateDB, h: Host, a: Address, nonce: nat, code: string, b: Address, k: Word)
    ensures var before := Seen(codec, db, h, b);
            && Seen(codec, db, Applying(codec, db, h, SelfdestructOp(a)), b) == (if b == a then None else before)
            && Seen(codec, db, Applying(codec, db, h, FetchOp(a)), b) == before
            && var after := Seen(codec, db, Applying(codec, db, h, CreateOp(a, nonce, code)), b);
               && (b != a || b in h.dead ==> after == before)
               && (b == a && b !in h.dead ==>
                     after.Some? && NonceAt(after) == nonce && CodeAt(after) == code && StorageAt(after, k) == 0)
  {
  }

  /** The value last written to a key since the account was last created: zero at a creation, none before. */
  function LastWrite(ops: seq<Op>, a: Address, key: Word): Option<Word> {
    if ops == [] then None
    else
      var last := ops[|ops| - 1];
      if last == SetStorageOp(a, key, if last.SetStorageOp? then last.value else 0) then Some(last.value)
      else if last.CreateOp? && last.a == a then Some(0)
      else LastWrite(ops[..|ops| - 1], a, key)
  }

  /** An operation brings the account into being. */
  ghost predicate Touched(ops: seq<Op>, a: Address) {
    exists i :: 0 <= i < |ops| && ops[i].a == a && (ops[i].SetStorageOp? || ops[i].CreateOp?)
  }

  lemma {:induction false} DirectReads(codec: Codec, db: StateDB, ops: seq<Op>, a: Address, key: Word)
    ensures var acn, w := Direct(codec, db, ops, a), LastWrite(ops, a, key);
            && StorageAt(acn, key) == (if w.Some? then w.value else StorageAt(Lookup(codec, db, a), key))
            && (acn.Some? <==> Lookup(codec, db, a).Some? || Touched(ops, a))
  {
    if ops != [] {
      var before, last := ops[..|ops| - 1], ops[|ops| - 1];
      DirectReads(codec, db, before, a, key);
      assert Touched(ops, a) <==> Touched(before, a) || (last.a == a && (last.SetStorageOp? || last.CreateOp?)) by {
        assert ops == before + [last];
        if i :| 0 <= i < |before| && before[i].a == a && (before[i].SetStorageOp? || before[i].CreateOp?) {
          assert ops[i].a == a;
        }
        assert ops[|ops| - 1] == last;
      }
    }
  }

  /** Over whole transactions: after any sequence of operations, and equally in the database once the journal has been
      applied, an account exists unless it was destroyed, if it existed before or was written to or created; and a key
      reads as the value last written to it since the last creation, or else as it did in the world. */
  lemma LookupsReadLastWrites(codec: Codec, db: StateDB, ops: seq<Op>, held: seq<Address>, graves: seq<Address>,
                              a: Address, key: Word)
    requires Faithful(codec)
    requires var h := HostAfter(codec, db, ops); Lists(held, h.accounts.Keys) && Lists(graves, h.dead)
    ensures var h := HostAfter(codec, db, ops);
            var seen, stored := Seen(codec, db, h, a), Lookup(codec, Applied(db, Journal(codec, h, held, graves)), a);
            var w := LastWrite(ops, a, key);
            && seen == stored
            && (seen.Some? <==> !Destroyed(ops, a) && (Lookup(codec, db, a).Some? || Touched(ops, a)))
            && StorageAt(seen, key) == if Destroyed(ops, a) then 0
                                       else if w.Some? then w.value else StorageAt(Lookup(codec, db, a), key)
  {
    hide Journal, HostAfter, Direct, Touched, LastWrite;
    HostIsDirect(codec, db, ops, a);
    JournalShowsOverlay(codec, db, HostAfter(codec, db, ops), held, graves, a);
    DirectReads(codec, db, ops, a, key);
  }
}
