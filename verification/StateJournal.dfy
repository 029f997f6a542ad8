/**
 The account state of the executor (cita-executor/core/src/state/mod.rs): a
 cache of account entries over a trie, and a stack of checkpoints. A checkpoint
 does not copy the state; it collects, per address, the entry the cache held
 before the first change since the checkpoint was made.

 The class `State` is proved to behave as the simple machine that copies the
 whole world at every checkpoint: `world` is what a reader sees now and
 `saved[i]` is what a reader saw when checkpoint `i` was made.
 */
module StateJournal {
  import opened Basics

  type Address(==, !new)
  type Word = nat
  type Root = nat
  type Bytes = seq<bv8>

  /** Root of the empty storage trie. */
  const NULL_ROOT: Root := 0

  /** The part of an account kept in the trie. */
  datatype Basic = Basic(nonce: nat, root: Root, code: Bytes)

  /** An account in memory: `changes` are unwritten storage slots and take
      precedence over `cache`, which remembers slots read from the trie. */
  datatype Account = Account(nonce: nat, root: Root, code: Bytes, cache: map<Word, Word>, changes: map<Word, Word>)

  datatype AccountState = CleanFresh | Dirty | Committed

  datatype Entry = Entry(account: Option<Account>, state: AccountState)

  type Cache = map<Address, Entry>
  type Journal = map<Address, Option<Entry>>

  /** The databases below the cache: accounts at the current state root and the
      storage tries by root. Neither changes between commits. */
  datatype Backend = Backend(accounts: map<Address, Basic>, tries: map<Root, map<Word, Word>>)

  /** What an account means to a reader: the storage cache is invisible. */
  datatype Plain = Plain(nonce: nat, root: Root, code: Bytes, changes: map<Word, Word>)

  type World = map<Address, Plain>

  function TrieSlot(db: Backend, root: Root, key: Word): Word {
    if root in db.tries && key in db.tries[root] then db.tries[root][key] else 0
  }

  function FromRlp(b: Basic): Account {
    Account(b.nonce, b.root, b.code, map[], map[])
  }

  function Load(db: Backend, a: Address): Entry {
    Entry(if a in db.accounts then Some(FromRlp(db.accounts[a])) else None, CleanFresh)
  }

  function NewBasic(nonce: nat): Account {
    Account(nonce, NULL_ROOT, [], map[], map[])
  }

  function ToPlain(acc: Account): Plain {
    Plain(acc.nonce, acc.root, acc.code, acc.changes)
  }

  function PlainOf(acc: Option<Account>): Option<Plain> {
    match acc
    case Some(x) => Some(ToPlain(x))
    case None => None
  }

  /** The value of a storage slot of a plain account. */
  function Slot(db: Backend, p: Plain, key: Word): Word {
    if key in p.changes then p.changes[key] else TrieSlot(db, p.root, key)
  }

  /** Storage of an address that may have no account. */
  function SlotAt(db: Backend, w: World, a: Address, key: Word): Word {
    if a in w then Slot(db, w[a], key) else 0
  }

  /** `Account::clone_dirty`: everything but the storage cache. */
  function CloneDirty(e: Entry): Entry {
    match e.account
    case Some(acc) => e.(account := Some(acc.(cache := map[])))
    case None => e
  }

  /** `AccountEntry::overwrite_with`. When our account is absent and the other
      one is present, the source leaves our account absent. */
  function OverwriteWith(ours: Entry, other: Entry): Entry {
    match other.account
    case None => Entry(None, other.state)
    case Some(theirs) =>
      match ours.account
      case None => Entry(None, other.state)
      case Some(mine) => Entry(Some(theirs.(cache := mine.cache + theirs.cache)), other.state)
  }

  /** What reverting one checkpointed address leaves in the cache. */
  function RevertEntry(current: Option<Entry>, backup: Option<Entry>): Option<Entry> {
    match backup
    case Some(v) => (match current case Some(e) => Some(OverwriteWith(e, v)) case None => Some(v))
    case None => (match current case Some(e) => if e.state.Dirty? then None else Some(e) case None => None)
  }

  // ---------------------------------------------------------------------
  // The column of one address: what the cache and every checkpoint hold for it
  // ---------------------------------------------------------------------

  /** The entry an address has once the checkpoints from `i` up are reverted:
      the oldest backup taken at or above `i`, or else the cached entry. */
  function EntryAt(cache: Cache, cps: seq<Journal>, i: nat, a: Address): Option<Entry>
    requires i <= |cps|
    decreases |cps| - i
  {
    if i == |cps| then Get(cache, a)
    else if a in cps[i] then cps[i][a]
    else EntryAt(cache, cps, i + 1, a)
  }

  /** What a reader sees for an address whose cache entry is `e`. */
  function View(db: Backend, e: Option<Entry>, a: Address): Option<Plain> {
    match e
    case Some(x) => PlainOf(x.account)
    case None => PlainOf(Load(db, a).account)
  }

  /** Every remembered slot is the slot of the account's trie. */
  ghost predicate Coherent(db: Backend, e: Option<Entry>) {
    e.Some? && e.value.account.Some? ==>
      var acc := e.value.account.value;
      forall k :: k in acc.cache ==> acc.cache[k] == TrieSlot(db, acc.root, k)
  }

  /** `next` may take the place of the backed-up entry `prev`: it is cached and
      dirty, and an account that existed still exists over the same trie. */
  ghost predicate Follows(prev: Option<Entry>, next: Option<Entry>) {
    && next.Some?
    && next.value.state.Dirty?
    && (prev.Some? && prev.value.account.Some? ==>
          next.value.account.Some? && next.value.account.value.root == prev.value.account.value.root)
  }

  /** The i-th copied world; the last one is the present. */
  function Nth(world: World, saved: seq<World>, i: nat): World
    requires i <= |saved|
  {
    if i < |saved| then saved[i] else world
  }

  ghost predicate Column(db: Backend, cache: Cache, cps: seq<Journal>, world: World, saved: seq<World>, a: Address)
    requires |cps| == |saved|
  {
    && (forall i :: 0 <= i <= |cps| ==> Get(Nth(world, saved, i), a) == View(db, EntryAt(cache, cps, i, a), a))
    && (forall i :: 0 <= i <= |cps| ==> Coherent(db, EntryAt(cache, cps, i, a)))
    && (forall i :: 0 <= i < |cps| && a in cps[i] ==> Follows(cps[i][a], EntryAt(cache, cps, i + 1, a)))
  }

  /** The journal stands for the present world and the stack of saved worlds. */
  ghost predicate Represents(db: Backend, cache: Cache, cps: seq<Journal>, world: World, saved: seq<World>) {
    && |cps| == |saved|
    && forall a :: Column(db, cache, cps, world, saved, a)
  }

  /** Two journals that hold the same for an address have the same column. */
  lemma {:induction false} SameEntryAt(c0: Cache, j0: seq<Journal>, c1: Cache, j1: seq<Journal>, i: nat, a: Address)
    requires |j0| == |j1| && i <= |j0|
    requires Get(c0, a) == Get(c1, a)
    requires forall k :: i <= k < |j0| ==> Get(j0[k], a) == Get(j1[k], a)
    ensures EntryAt(c0, j0, i, a) == EntryAt(c1, j1, i, a)
    decreases |j0| - i
  {
    if i < |j0| {
      assert Get(j0[i], a) == Get(j1[i], a);
      if a !in j0[i] {
        SameEntryAt(c0, j0, c1, j1, i + 1, a);
      }
    }
  }

  /** Nothing is backed up for an address that is not cached. */
  lemma {:induction false} UncachedIsUnsaved(db: Backend, cache: Cache, cps: seq<Journal>, world: World, saved: seq<World>,
                                             a: Address, i: nat)
    requires |cps| == |saved| && i <= |cps|
    requires Column(db, cache, cps, world, saved, a)
    requires a !in cache
    ensures forall k :: i <= k < |cps| ==> a !in cps[k]
    ensures EntryAt(cache, cps, i, a) == None
    decreases |cps| - i
  {
    if i < |cps| {
      UncachedIsUnsaved(db, cache, cps, world, saved, a, i + 1);
    }
  }

  // ---------------------------------------------------------------------
  // Backing up and changing one address
  // ---------------------------------------------------------------------

  /** Backs an address up in the newest checkpoint unless it already is. */
  function BackUp(cps: seq<Journal>, a: Address, e: Option<Entry>): (r: seq<Journal>)
    ensures |r| == |cps|
  {
    if |cps| > 0 && a !in cps[|cps| - 1] then cps[|cps| - 1 := cps[|cps| - 1][a := e]] else cps
  }

  /** What a revert of the newest checkpoint goes back to: the backup that it holds, or
      the one it would be given now. */
  function Backup(cache: Cache, cps: seq<Journal>, a: Address): Option<Entry> {
    if |cps| > 0 && a in cps[|cps| - 1] then cps[|cps| - 1][a] else Get(cache, a)
  }

  /** `backup` keeps all of `e` that matters. */
  ghost predicate Alike(db: Backend, e: Option<Entry>, backup: Option<Entry>) {
    && e.Some? == backup.Some?
    && Coherent(db, backup)
    && (e.Some? ==>
          && e.value.state == backup.value.state
          && PlainOf(e.value.account) == PlainOf(backup.value.account))
  }

  lemma {:induction false} ChangedEntryAt(cache: Cache, cps: seq<Journal>, a: Address, backup: Option<Entry>, next: Entry, i: nat)
    requires i < |cps|
    ensures
      var was, now := EntryAt(cache, cps, i, a), EntryAt(cache[a := next], BackUp(cps, a, backup), i, a);
      now == was || (was == Get(cache, a) && now == backup)
    decreases |cps| - i
  {
    if i + 1 < |cps| {
      ChangedEntryAt(cache, cps, a, backup, next, i + 1);
    }
  }

  /** Changing an address after backing it up keeps its column. */
  lemma ColumnAfterChange(db: Backend, cache: Cache, cps: seq<Journal>, world: World, saved: seq<World>, a: Address,
                          backup: Option<Entry>, next: Entry, world': World)
    requires |cps| == |saved| && Column(db, cache, cps, world, saved, a)
    requires Alike(db, Get(cache, a), backup)
    requires |cps| > 0 ==> Follows(Backup(cache, cps, a), Some(next))
    requires Coherent(db, Some(next)) && Get(world', a) == PlainOf(next.account)
    ensures Column(db, cache[a := next], BackUp(cps, a, backup), world', saved, a)
  {
    var n := |cps|;
    var cache', cps' := cache[a := next], BackUp(cps, a, backup);
    assert EntryAt(cache, cps, n, a) == Get(cache, a);
    assert EntryAt(cache', cps', n, a) == Some(next);
    forall i | 0 <= i < n
      ensures
        && Get(Nth(world', saved, i), a) == View(db, EntryAt(cache', cps', i, a), a)
        && Coherent(db, EntryAt(cache', cps', i, a))
    {
      ChangedEntryAt(cache, cps, a, backup, next, i);
      assert Get(Nth(world, saved, i), a) == View(db, EntryAt(cache, cps, i, a), a);
    }
    forall i | 0 <= i < n && a in cps'[i]
      ensures Follows(cps'[i][a], EntryAt(cache', cps', i + 1, a))
    {
      if i + 1 < n {
        ChangedEntryAt(cache, cps, a, backup, next, i + 1);
      }
    }
  }

  /** The other addresses keep theirs. */
  lemma ColumnElsewhere(db: Backend, cache: Cache, cps: seq<Journal>, world: World,
                        cache': Cache, cps': seq<Journal>, world': World, saved: seq<World>, b: Address)
    requires |cps| == |saved| == |cps'| && Column(db, cache, cps, world, saved, b)
    requires Get(cache, b) == Get(cache', b) && Get(world, b) == Get(world', b)
    requires forall k :: 0 <= k < |cps| ==> Get(cps[k], b) == Get(cps'[k], b)
    ensures Column(db, cache', cps', world', saved, b)
  {
    forall i | 0 <= i <= |cps|
      ensures EntryAt(cache, cps, i, b) == EntryAt(cache', cps', i, b)
    {
      SameEntryAt(cache, cps, cache', cps', i, b);
    }
    forall i | 0 <= i <= |cps|
      ensures Get(Nth(world', saved, i), b) == View(db, EntryAt(cache', cps', i, b), b)
    {
      assert Get(Nth(world, saved, i), b) == View(db, EntryAt(cache, cps, i, b), b);
    }
    forall i | 0 <= i < |cps| && b in cps'[i]
      ensures Follows(cps'[i][b], EntryAt(cache', cps', i + 1, b))
    {
      assert Get(cps[i], b) == Get(cps'[i], b);
      assert EntryAt(cache, cps, i + 1, b) == EntryAt(cache', cps', i + 1, b);
    }
  }

  /** Backing up and changing one address keeps the representation. */
  lemma RepresentsAfterChange(db: Backend, cache: Cache, cps: seq<Journal>, world: World, saved: seq<World>, a: Address,
                              backup: Option<Entry>, next: Entry, world': World)
    requires Represents(db, cache, cps, world, saved)
    requires Alike(db, Get(cache, a), backup)
    requires |cps| > 0 ==> Follows(Backup(cache, cps, a), Some(next))
    requires Coherent(db, Some(next)) && Get(world', a) == PlainOf(next.account)
    requires forall b :: b != a ==> Get(world', b) == Get(world, b)
    ensures Represents(db, cache[a := next], BackUp(cps, a, backup), world', saved)
  {
    var cache', cps' := cache[a := next], BackUp(cps, a, backup);
    forall b
      ensures Column(db, cache', cps', world', saved, b)
    {
      assert Column(db, cache, cps, world, saved, b);
      if b == a {
        ColumnAfterChange(db, cache, cps, world, saved, a, backup, next, world');
      } else {
        ColumnElsewhere(db, cache, cps, world, cache', cps', world', saved, b);
      }
    }
  }

  /** Filling the cache from the trie, or remembering a slot, changes nothing a
      reader sees now or after any revert. */
  lemma RepresentsAfterRead(db: Backend, cache: Cache, cps: seq<Journal>, world: World, saved: seq<World>, a: Address, e: Entry)
    requires Represents(db, cache, cps, world, saved)
    requires Coherent(db, Some(e))
    requires a !in cache ==> e.account == Load(db, a).account
    requires a in cache ==> e.state == cache[a].state && PlainOf(e.account) == PlainOf(cache[a].account)
    ensures Represents(db, cache[a := e], cps, world, saved)
  {
    var cache' := cache[a := e];
    forall b
      ensures Column(db, cache', cps, world, saved, b)
    {
      assert Column(db, cache, cps, world, saved, b);
      if b != a {
        ColumnElsewhere(db, cache, cps, world, cache', cps, world, saved, b);
      } else {
        ReadColumn(db, cache, cps, world, saved, a, e);
      }
    }
  }

  lemma {:induction false} ReadEntryAt(cache: Cache, cps: seq<Journal>, a: Address, e: Entry, i: nat)
    requires i <= |cps|
    ensures
      var was, now := EntryAt(cache, cps, i, a), EntryAt(cache[a := e], cps, i, a);
      now == was || (was == Get(cache, a) && now == Some(e))
    decreases |cps| - i
  {
    if i < |cps| {
      ReadEntryAt(cache, cps, a, e, i + 1);
    }
  }

  lemma ReadColumn(db: Backend, cache: Cache, cps: seq<Journal>, world: World, saved: seq<World>, a: Address, e: Entry)
    requires |cps| == |saved| && Column(db, cache, cps, world, saved, a)
    requires Coherent(db, Some(e))
    requires a !in cache ==> e.account == Load(db, a).account
    requires a in cache ==> e.state == cache[a].state && PlainOf(e.account) == PlainOf(cache[a].account)
    ensures Column(db, cache[a := e], cps, world, saved, a)
  {
    var cache' := cache[a := e];
    if a !in cache {
      UncachedIsUnsaved(db, cache, cps, world, saved, a, 0);
    }
    forall i | 0 <= i <= |cps|
      ensures
        && Get(Nth(world, saved, i), a) == View(db, EntryAt(cache', cps, i, a), a)
        && Coherent(db, EntryAt(cache', cps, i, a))
    {
      ReadEntryAt(cache, cps, a, e, i);
      assert Get(Nth(world, saved, i), a) == View(db, EntryAt(cache, cps, i, a), a);
    }
    forall i | 0 <= i < |cps| && a in cps[i]
      ensures Follows(cps[i][a], EntryAt(cache', cps, i + 1, a))
    {
      ReadEntryAt(cache, cps, a, e, i + 1);
    }
  }

  // ---------------------------------------------------------------------
  // Making, discarding and reverting a checkpoint
  // ---------------------------------------------------------------------

  lemma {:induction false} PushEntryAt(cache: Cache, cps: seq<Journal>, i: nat, a: Address)
    requires i <= |cps|
    ensures EntryAt(cache, cps + [map[]], i, a) == EntryAt(cache, cps, i, a)
    decreases |cps| - i
  {
    if i < |cps| {
      PushEntryAt(cache, cps, i + 1, a);
    }
  }

  lemma RepresentsAfterCheckpoint(db: Backend, cache: Cache, cps: seq<Journal>, world: World, saved: seq<World>)
    requires Represents(db, cache, cps, world, saved)
    ensures Represents(db, cache, cps + [map[]], world, saved + [world])
  {
    forall a
      ensures Column(db, cache, cps + [map[]], world, saved + [world], a)
    {
      assert Column(db, cache, cps, world, saved, a);
      var n := |cps|;
      forall i | 0 <= i <= n
        ensures EntryAt(cache, cps + [map[]], i, a) == EntryAt(cache, cps, i, a)
        ensures Get(Nth(world, saved + [world], i), a) == View(db, EntryAt(cache, cps, i, a), a)
      {
        PushEntryAt(cache, cps, i, a);
        assert Get(Nth(world, saved, i), a) == View(db, EntryAt(cache, cps, i, a), a);
      }
      assert EntryAt(cache, cps + [map[]], n + 1, a) == Get(cache, a) == EntryAt(cache, cps, n, a);
    }
  }

  /** Merging the newest checkpoint into the one before, which keeps its own backups. */
  function Merge(cps: seq<Journal>): (r: seq<Journal>)
    requires |cps| > 0
    ensures |r| == |cps| - 1
  {
    var n := |cps|;
    if n == 1 then [] else cps[..n - 2] + [cps[n - 1] + cps[n - 2]]
  }

  lemma {:induction false} MergeEntryAt(cache: Cache, cps: seq<Journal>, i: nat, a: Address)
    requires i < |cps| - 1
    ensures EntryAt(cache, Merge(cps), i, a) == EntryAt(cache, cps, i, a)
    decreases |cps| - i
  {
    var n := |cps|;
    if i < n - 2 {
      MergeEntryAt(cache, cps, i + 1, a);
    } else {
      assert Merge(cps)[i] == cps[n - 1] + cps[n - 2];
      assert EntryAt(cache, cps, n, a) == EntryAt(cache, Merge(cps), n - 1, a);
    }
  }

  lemma RepresentsAfterDiscard(db: Backend, cache: Cache, cps: seq<Journal>, world: World, saved: seq<World>)
    requires Represents(db, cache, cps, world, saved) && |cps| > 0
    ensures Represents(db, cache, Merge(cps), world, saved[..|saved| - 1])
  {
    var n := |cps|;
    var cps', saved' := Merge(cps), saved[..n - 1];
    forall a
      ensures Column(db, cache, cps', world, saved', a)
    {
      assert Column(db, cache, cps, world, saved, a);
      assert EntryAt(cache, cps', n - 1, a) == Get(cache, a) == EntryAt(cache, cps, n, a);
      assert Get(Nth(world, saved, n), a) == View(db, EntryAt(cache, cps, n, a), a);
      forall i | 0 <= i < n - 1
        ensures EntryAt(cache, cps', i, a) == EntryAt(cache, cps, i, a)
        ensures Get(Nth(world, saved', i), a) == View(db, EntryAt(cache, cps', i, a), a)
      {
        MergeEntryAt(cache, cps, i, a);
        assert Get(Nth(world, saved, i), a) == View(db, EntryAt(cache, cps, i, a), a);
      }
      forall i | 0 <= i < n - 1 && a in cps'[i]
        ensures Follows(cps'[i][a], EntryAt(cache, cps', i + 1, a))
      {
        if i < n - 2 {
          assert cps'[i] == cps[i];
        } else if a in cps[n - 2] && a in cps[n - 1] {
          assert EntryAt(cache, cps, n - 1, a) == cps[n - 1][a];
          assert Follows(cps[n - 2][a], EntryAt(cache, cps, n - 1, a));
          assert Follows(cps[n - 1][a], EntryAt(cache, cps, n, a));
        } else if a in cps[n - 2] {
          assert EntryAt(cache, cps, n - 1, a) == EntryAt(cache, cps, n, a);
          assert Follows(cps[n - 2][a], EntryAt(cache, cps, n - 1, a));
        } else {
          assert Follows(cps[n - 1][a], EntryAt(cache, cps, n, a));
        }
      }
    }
  }

  /** The cache after reverting one checkpoint. */
  function RevertCache(cache: Cache, cp: Journal): Cache {
    map a | a in cache.Keys + cp.Keys && Reverted(cache, cp, a).Some? :: Reverted(cache, cp, a).value
  }

  function Reverted(cache: Cache, cp: Journal, a: Address): Option<Entry> {
    if a in cp then RevertEntry(Get(cache, a), cp[a]) else Get(cache, a)
  }

  lemma {:induction false} RevertEntryAt(cache: Cache, cps: seq<Journal>, i: nat, a: Address)
    requires i < |cps|
    ensures
      var n := |cps|;
      var cache' := RevertCache(cache, cps[n - 1]);
      var was, now := EntryAt(cache, cps, i, a), EntryAt(cache', cps[..n - 1], i, a);
      now == was || (was == EntryAt(cache, cps, n - 1, a) && now == Get(cache', a))
    decreases |cps| - i
  {
    if i < |cps| - 1 {
      RevertEntryAt(cache, cps, i + 1, a);
    }
  }

  /** A reverted address is alike the entry that was backed up. */
  lemma RevertedAlike(db: Backend, cache: Cache, cps: seq<Journal>, world: World, saved: seq<World>, a: Address)
    requires |cps| == |saved| > 0 && Column(db, cache, cps, world, saved, a)
    ensures
      var n := |cps|;
      Alike(db, EntryAt(cache, cps, n - 1, a), Get(RevertCache(cache, cps[n - 1]), a))
  {
    var n := |cps|;
    assert EntryAt(cache, cps, n, a) == Get(cache, a);
    assert Coherent(db, EntryAt(cache, cps, n, a)) && Coherent(db, EntryAt(cache, cps, n - 1, a));
    assert a in cps[n - 1] ==> Follows(cps[n - 1][a], EntryAt(cache, cps, n, a));
    assert Get(RevertCache(cache, cps[n - 1]), a) == Reverted(cache, cps[n - 1], a);
  }

  lemma RepresentsAfterRevert(db: Backend, cache: Cache, cps: seq<Journal>, world: World, saved: seq<World>)
    requires Represents(db, cache, cps, world, saved) && |cps| > 0
    ensures Represents(db, RevertCache(cache, cps[|cps| - 1]), cps[..|cps| - 1], saved[|saved| - 1], saved[..|saved| - 1])
  {
    var n := |cps|;
    var cache', cps' := RevertCache(cache, cps[n - 1]), cps[..n - 1];
    var world', saved' := saved[n - 1], saved[..n - 1];
    forall a
      ensures Column(db, cache', cps', world', saved', a)
    {
      assert Column(db, cache, cps, world, saved, a);
      RevertedAlike(db, cache, cps, world, saved, a);
      forall i | 0 <= i <= n - 1
        ensures
          && Get(Nth(world', saved', i), a) == View(db, EntryAt(cache', cps', i, a), a)
          && Coherent(db, EntryAt(cache', cps', i, a))
      {
        RevertEntryAt(cache, cps, i, a);
        assert Get(Nth(world, saved, i), a) == View(db, EntryAt(cache, cps, i, a), a);
      }
      forall i | 0 <= i < n - 1 && a in cps'[i]
        ensures Follows(cps'[i][a], EntryAt(cache', cps', i + 1, a))
      {
        RevertEntryAt(cache, cps, i + 1, a);
        assert Follows(cps[i][a], EntryAt(cache, cps, i + 1, a));
      }
    }
  }

  // ---------------------------------------------------------------------
  // Where reverting does not restore
  // ---------------------------------------------------------------------

  /** There is no account to go back to, or it is loaded from the trie again. */
  predicate Absent(backup: Option<Entry>) {
    backup.None? || backup.value.account.None?
  }

  /** The cache once an address has been given the entry `next` and the newest
      checkpoint has been reverted. */
  function ChangedThenReverted(cache: Cache, cps: seq<Journal>, a: Address, next: Entry): Cache
    requires |cps| > 0
  {
    RevertCache(cache[a := next], BackUp(cps, a, Get(cache, a))[|cps| - 1])
  }

  lemma SavedIsBackedUp(db: Backend, cache: Cache, cps: seq<Journal>, world: World, saved: seq<World>, a: Address)
    requires Represents(db, cache, cps, world, saved) && |cps| > 0
    ensures Get(saved[|saved| - 1], a) == View(db, Backup(cache, cps, a), a)
    ensures Coherent(db, Backup(cache, cps, a))
  {
    var n := |cps|;
    assert Column(db, cache, cps, world, saved, a);
    assert EntryAt(cache, cps, n, a) == Get(cache, a);
    assert EntryAt(cache, cps, n - 1, a) == Backup(cache, cps, a);
    assert Get(Nth(world, saved, n - 1), a) == View(db, EntryAt(cache, cps, n - 1, a), a);
  }

  /** Killing an account and reverting gives back what the checkpoint saved exactly when
      the account was not cached then, or there was none: `overwrite_with` leaves an
      absent account absent. */
  lemma KillThenRevert(db: Backend, cache: Cache, cps: seq<Journal>, world: World, saved: seq<World>, a: Address)
    requires Represents(db, cache, cps, world, saved) && |cps| > 0
    ensures
      var after := ChangedThenReverted(cache, cps, a, Entry(None, Dirty));
      View(db, Get(after, a), a) == Get(saved[|saved| - 1], a) <==> Absent(Backup(cache, cps, a))
  {
    SavedIsBackedUp(db, cache, cps, world, saved, a);
    var next := Entry(None, Dirty);
    RevertedChange(cache, cps, a, next);
  }

  lemma RevertedChange(cache: Cache, cps: seq<Journal>, a: Address, next: Entry)
    requires |cps| > 0
    ensures Get(ChangedThenReverted(cache, cps, a, next), a) == RevertEntry(Some(next), Backup(cache, cps, a))
  {
    var cache', cp := cache[a := next], BackUp(cps, a, Get(cache, a))[|cps| - 1];
    assert cp[a] == Backup(cache, cps, a);
    assert Get(RevertCache(cache', cp), a) == Reverted(cache', cp, a);
  }

  /** The slot a reader finds, whatever the cache holds for the address. */
  function ReadSlot(db: Backend, e: Option<Entry>, a: Address, k: Word): Word {
    var account := if e.Some? then e.value.account else Load(db, a).account;
    match account
    case None => 0
    case Some(acc) =>
      if k in acc.changes then acc.changes[k]
      else if k in acc.cache then acc.cache[k]
      else TrieSlot(db, acc.root, k)
  }

  /** Creating a contract over an account, doing anything to it and reverting gives back
      nonce, code and changes, and slot `k` exactly when the account was not cached when
      the checkpoint was made, or there was none, or it had changed or remembered the
      slot, or the new contract did not remember it, or the two tries agree on it: a slot
      remembered for the new, empty trie survives the revert. */
  lemma RecreateThenRevert(db: Backend, cache: Cache, cps: seq<Journal>, world: World, saved: seq<World>, a: Address,
                           made: Account, k: Word)
    requires Represents(db, cache, cps, world, saved) && |cps| > 0
    requires made.root == NULL_ROOT && Coherent(db, Some(Entry(Some(made), Dirty)))
    ensures
      var backup, after := Backup(cache, cps, a), Get(ChangedThenReverted(cache, cps, a, Entry(Some(made), Dirty)), a);
      && View(db, after, a) == Get(saved[|saved| - 1], a)
      && (ReadSlot(db, after, a, k) == SlotAt(db, saved[|saved| - 1], a, k) <==>
          || Absent(backup)
          || k in backup.value.account.value.changes || k in backup.value.account.value.cache
          || k !in made.cache || TrieSlot(db, backup.value.account.value.root, k) == TrieSlot(db, NULL_ROOT, k))
  {
    SavedIsBackedUp(db, cache, cps, world, saved, a);
    RevertedChange(cache, cps, a, Entry(Some(made), Dirty));
  }

  /** Giving an address an entry directly, as killing and creating do, keeps the journal
      sound exactly when the entry may take the place of the backup. */
  lemma RepresentsIffFollows(db: Backend, cache: Cache, cps: seq<Journal>, world: World, saved: seq<World>, a: Address,
                             next: Entry, world': World)
    requires Represents(db, cache, cps, world, saved)
    requires next.state.Dirty? && Coherent(db, Some(next)) && Get(world', a) == PlainOf(next.account)
    requires forall b :: b != a ==> Get(world', b) == Get(world, b)
    ensures
      Represents(db, cache[a := next], BackUp(cps, a, Get(cache, a)), world', saved) <==>
      cps == [] || Follows(Backup(cache, cps, a), Some(next))
  {
    var n := |cps|;
    var cache', cps' := cache[a := next], BackUp(cps, a, Get(cache, a));
    assert Column(db, cache, cps, world, saved, a);
    assert EntryAt(cache, cps, n, a) == Get(cache, a);
    if n == 0 || Follows(Backup(cache, cps, a), Some(next)) {
      RepresentsAfterChange(db, cache, cps, world, saved, a, Get(cache, a), next, world');
    } else {
      assert EntryAt(cache', cps', n, a) == Some(next);
      assert cps'[n - 1][a] == Backup(cache, cps, a);
      assert !Column(db, cache', cps', world', saved, a);
    }
  }

  /** An account that is not there now was not backed up either, and one that is there
      has the trie of its backup. */
  lemma BackupOf(db: Backend, cache: Cache, cps: seq<Journal>, world: World, saved: seq<World>, a: Address)
    requires Represents(db, cache, cps, world, saved)
    ensures a !in world || a !in cache ==> Absent(Backup(cache, cps, a))
    ensures a in world && !Absent(Backup(cache, cps, a)) ==>
              Backup(cache, cps, a).value.account.value.root == world[a].root
  {
    var n := |cps|;
    assert Column(db, cache, cps, world, saved, a);
    assert EntryAt(cache, cps, n, a) == Get(cache, a);
    assert Get(Nth(world, saved, n), a) == View(db, EntryAt(cache, cps, n, a), a);
    if n > 0 && a in cps[n - 1] {
      assert Follows(cps[n - 1][a], EntryAt(cache, cps, n, a));
    }
  }

  // ---------------------------------------------------------------------
  // The state object
  // ---------------------------------------------------------------------

  class State {
    const db: Backend
    const startNonce: nat
    var cache: Cache
    var checkpoints: seq<Journal>
    /** What a reader sees, now and when each open checkpoint was made. */
    ghost var world: World
    ghost var saved: seq<World>

    ghost predicate Valid()
      reads this
    {
      Represents(db, cache, checkpoints, world, saved)
    }

    constructor (db: Backend, startNonce: nat)
      ensures Valid() && this.db == db && this.startNonce == startNonce && saved == []
      ensures world == map a | a in db.accounts :: ToPlain(FromRlp(db.accounts[a]))
    {
      this.db := db;
      this.startNonce := startNonce;
      cache := map[];
      checkpoints := [];
      world := map a | a in db.accounts :: ToPlain(FromRlp(db.accounts[a]));
      saved := [];
      new;
      assert forall a :: Column(db, cache, checkpoints, world, saved, a);
    }

    method Checkpoint()
      requires Valid()
      modifies this
      ensures Valid()
      ensures world == old(world) && saved == old(saved) + [old(world)]
    {
      RepresentsAfterCheckpoint(db, cache, checkpoints, world, saved);
      checkpoints := checkpoints + [map[]];
      saved := saved + [world];
    }

    method DiscardCheckpoint()
      requires Valid()
      modifies this
      ensures Valid()
      ensures world == old(world)
      ensures saved == if old(saved) == [] then [] else old(saved)[..|old(saved)| - 1]
    {
      if |checkpoints| > 0 {
        RepresentsAfterDiscard(db, cache, checkpoints, world, saved);
        ghost var merged := Merge(checkpoints);
        var n := |checkpoints|;
        var checkpoint := checkpoints[n - 1];
        checkpoints := checkpoints[..n - 1];
        if n > 1 {
          var prev := checkpoints[n - 2];
          ghost var before := prev;
          if prev == map[] {
            prev := checkpoint;
          } else {
            var rest := checkpoint.Keys;
            while rest != {}
              invariant rest <= checkpoint.Keys
              invariant forall k :: k in checkpoint.Keys - rest || k in before <==> k in prev
              invariant forall k :: k in prev ==> prev[k] == if k in before then before[k] else checkpoint[k]
              decreases rest
            {
              var k :| k in rest;
              if k !in prev {
                prev := prev[k := checkpoint[k]];
              }
              rest := rest - {k};
            }
          }
          assert prev == checkpoint + before;
          checkpoints := checkpoints[n - 2 := prev];
        }
        assert checkpoints == merged;
        saved := saved[..|saved| - 1];
      }
    }

    method RevertToCheckpoint()
      requires Valid()
      modifies this
      ensures Valid()
      ensures old(saved) == [] ==> world == old(world) && saved == []
      ensures old(saved) != [] ==> world == old(saved)[|old(saved)| - 1] && saved == old(saved)[..|old(saved)| - 1]
    {
      if |checkpoints| > 0 {
        RepresentsAfterRevert(db, cache, checkpoints, world, saved);
        var n := |checkpoints|;
        var checkpoint := checkpoints[n - 1];
        checkpoints := checkpoints[..n - 1];
        ghost var before := cache;
        var rest := checkpoint.Keys;
        while rest != {}
          modifies `cache
          invariant rest <= checkpoint.Keys
          invariant forall a :: Get(cache, a) == if a in rest then Get(before, a) else Reverted(before, checkpoint, a)
          decreases rest
        {
          var k :| k in rest;
          match checkpoint[k] {
            case Some(v) =>
              if k in cache {
                cache := cache[k := OverwriteWith(cache[k], v)];
              } else {
                cache := cache[k := v];
              }
            case None =>
              if k in cache && cache[k].state.Dirty? {
                cache := cache - {k};
              }
          }
          rest := rest - {k};
        }
        assert forall a :: Get(cache, a) == Get(RevertCache(before, checkpoint), a);
        assert cache == RevertCache(before, checkpoint);
        world := saved[|saved| - 1];
        saved := saved[..|saved| - 1];
      }
    }

    method InsertCache(a: Address, e: Entry)
      modifies `cache, `checkpoints
      ensures cache == old(cache)[a := e]
      ensures checkpoints == if e.state.Dirty? then BackUp(old(checkpoints), a, Get(old(cache), a)) else old(checkpoints)
    {
      if e.state.Dirty? && |checkpoints| > 0 {
        var top := |checkpoints| - 1;
        if a !in checkpoints[top] {
          checkpoints := checkpoints[top := checkpoints[top][a := Get(cache, a)]];
        }
      }
      cache := cache[a := e];
    }

    method NoteCache(a: Address)
      modifies `checkpoints
      ensures checkpoints == BackUp(old(checkpoints), a, if a in cache then Some(CloneDirty(cache[a])) else None)
    {
      if |checkpoints| > 0 {
        var top := |checkpoints| - 1;
        if a !in checkpoints[top] {
          checkpoints := checkpoints[top := checkpoints[top][a := if a in cache then Some(CloneDirty(cache[a])) else None]];
        }
      }
    }

    /** Loads an account into the cache unless it is there. */
    method EnsureCached(a: Address)
      requires Valid()
      modifies `cache, `checkpoints
      ensures Valid() && a in cache
      ensures PlainOf(cache[a].account) == Get(world, a)
      ensures Coherent(db, Some(cache[a]))
      ensures old(a in cache) ==> cache == old(cache)
      ensures checkpoints == old(checkpoints)
    {
      if a !in cache {
        RepresentsAfterRead(db, cache, checkpoints, world, saved, a, Load(db, a));
        InsertCache(a, Load(db, a));
      }
      CachedView(a);
    }

    lemma CachedView(a: Address)
      requires Valid()
      ensures View(db, Get(cache, a), a) == Get(world, a)
      ensures Coherent(db, Get(cache, a))
    {
      assert Column(db, cache, checkpoints, world, saved, a);
      var n := |checkpoints|;
      assert EntryAt(cache, checkpoints, n, a) == Get(cache, a);
      assert Get(Nth(world, saved, n), a) == View(db, EntryAt(cache, checkpoints, n, a), a);
    }

    method Exists(a: Address) returns (r: bool)
      requires Valid()
      modifies `cache, `checkpoints
      ensures Valid() && r == (a in world)
    {
      EnsureCached(a);
      r := cache[a].account.Some?;
    }

    method ExistsAndNotNull(a: Address) returns (r: bool)
      requires Valid()
      modifies `cache, `checkpoints
      ensures Valid() && r == (a in world && !(world[a].nonce == 0 && world[a].code == []))
    {
      EnsureCached(a);
      match cache[a].account {
        case Some(acc) => r := !(acc.nonce == 0 && acc.code == []);
        case None => r := false;
      }
    }

    method Nonce(a: Address) returns (n: nat)
      requires Valid()
      modifies `cache, `checkpoints
      ensures Valid() && n == if a in world then world[a].nonce else startNonce
    {
      EnsureCached(a);
      match cache[a].account {
        case Some(acc) => n := acc.nonce;
        case None => n := startNonce;
      }
    }

    /** Reads a slot from the changes, the remembered slots or the trie. */
    method StorageAt(a: Address, key: Word) returns (v: Word)
      requires Valid()
      modifies `cache, `checkpoints
      ensures Valid() && v == SlotAt(db, world, a, key)
    {
      EnsureCached(a);
      match cache[a].account {
        case None => v := 0;
        case Some(acc) =>
          if key in acc.changes {
            v := acc.changes[key];
          } else if key in acc.cache {
            v := acc.cache[key];
          } else {
            v := TrieSlot(db, acc.root, key);
            var e := cache[a].(account := Some(acc.(cache := acc.cache[key := v])));
            RepresentsAfterRead(db, cache, checkpoints, world, saved, a, e);
            cache := cache[a := e];
          }
      }
    }

    /** Backs an account up and makes it dirty, creating it if need be. */
    method RequireOrFrom(a: Address, default: Account) returns (acc: Account)
      requires Valid() && default.cache == map[]
      modifies this
      ensures Valid() && saved == old(saved)
      ensures a in cache && cache[a] == Entry(Some(acc), Dirty)
      ensures ToPlain(acc) == if a in old(world) then old(world)[a] else ToPlain(default)
      ensures world == old(world)[a := ToPlain(acc)]
      ensures |checkpoints| > 0 ==> a in checkpoints[|checkpoints| - 1]
    {
      EnsureCached(a);
      var e := cache[a];
      acc := if e.account.Some? then e.account.value else default;
      BackupOf(db, cache, checkpoints, world, saved, a);
      RepresentsAfterChange(db, cache, checkpoints, world, saved, a, Some(CloneDirty(e)), Entry(Some(acc), Dirty),
                            world[a := ToPlain(acc)]);
      NoteCache(a);
      cache := cache[a := Entry(Some(acc), Dirty)];
      world := world[a := ToPlain(acc)];
    }

    /** Writes back an account obtained from `RequireOrFrom`. */
    method Put(a: Address, acc: Account)
      requires Valid() && a in cache && cache[a].account.Some? && cache[a].state.Dirty?
      requires |checkpoints| > 0 ==> a in checkpoints[|checkpoints| - 1]
      requires acc.root == cache[a].account.value.root && acc.cache == cache[a].account.value.cache
      modifies this
      ensures Valid() && saved == old(saved)
      ensures world == old(world)[a := ToPlain(acc)]
    {
      CachedView(a);
      BackupOf(db, cache, checkpoints, world, saved, a);
      RepresentsAfterChange(db, cache, checkpoints, world, saved, a, Get(cache, a), Entry(Some(acc), Dirty),
                            world[a := ToPlain(acc)]);
      cache := cache[a := Entry(Some(acc), Dirty)];
      world := world[a := ToPlain(acc)];
    }

    method IncNonce(a: Address)
      requires Valid()
      modifies this
      ensures Valid() && saved == old(saved)
      ensures world == WithNonceIncremented(old(world), a, startNonce)
    {
      var acc := RequireOrFrom(a, NewBasic(startNonce));
      Put(a, acc.(nonce := acc.nonce + 1));
    }

    method SetStorage(a: Address, key: Word, value: Word)
      requires Valid()
      modifies this
      ensures Valid() && saved == old(saved)
      ensures world == WithStorage(db, old(world), a, key, value, startNonce)
    {
      var v := StorageAt(a, key);
      if v != value {
        var acc := RequireOrFrom(a, NewBasic(startNonce));
        Put(a, acc.(changes := acc.changes[key := value]));
      }
    }

    method InitCode(a: Address, code: Bytes)
      requires Valid()
      modifies this
      ensures Valid() && saved == old(saved)
      ensures world == WithCode(old(world), a, code, startNonce)
    {
      var acc := RequireOrFrom(a, NewBasic(startNonce));
      Put(a, acc.(code := code));
    }

    /** Installs an empty contract. Over an account with a trie that a revert would have
        to bring back, the journal is not sound any more (see `RecreateThenRevert`). */
    method NewContract(a: Address, nonceOffset: nat)
      requires Valid()
      modifies this
      ensures saved == old(saved)
      ensures world == old(world)[a := ToPlain(NewBasic(startNonce + nonceOffset))]
      ensures
        var backup := old(Backup(cache, checkpoints, a));
        Valid() <==> saved == [] || Absent(backup) || backup.value.account.value.root == NULL_ROOT
      ensures a !in old(world) || a !in old(cache) || old(world)[a].root == NULL_ROOT ==> Valid()
    {
      var e := Entry(Some(NewBasic(startNonce + nonceOffset)), Dirty);
      BackupOf(db, cache, checkpoints, world, saved, a);
      RepresentsIffFollows(db, cache, checkpoints, world, saved, a, e, world[a := ToPlain(e.account.value)]);
      InsertCache(a, e);
      world := world[a := ToPlain(e.account.value)];
    }

    /** Removes an account. The journal stays sound exactly if no revert would have to
        bring a cached account back (see `KillThenRevert`). */
    method KillAccount(a: Address)
      requires Valid()
      modifies this
      ensures saved == old(saved)
      ensures world == old(world) - {a}
      ensures Valid() <==> saved == [] || Absent(old(Backup(cache, checkpoints, a)))
      ensures a !in old(world) || a !in old(cache) ==> Valid()
    {
      BackupOf(db, cache, checkpoints, world, saved, a);
      RepresentsIffFollows(db, cache, checkpoints, world, saved, a, Entry(None, Dirty), world - {a});
      InsertCache(a, Entry(None, Dirty));
      world := world - {a};
    }
  }

  // ---------------------------------------------------------------------
  // What the operations mean on plain worlds
  // ---------------------------------------------------------------------

  function Fetch(w: World, a: Address, startNonce: nat): Plain {
    if a in w then w[a] else ToPlain(NewBasic(startNonce))
  }

  function WithNonceIncremented(w: World, a: Address, startNonce: nat): World {
    var p := Fetch(w, a, startNonce);
    w[a := p.(nonce := p.nonce + 1)]
  }

  /** Writing the value a slot already has does not even create the account. */
  function WithStorage(db: Backend, w: World, a: Address, key: Word, value: Word, startNonce: nat): World {
    if SlotAt(db, w, a, key) == value then w
    else
      var p := Fetch(w, a, startNonce);
      w[a := p.(changes := p.changes[key := value])]
  }

  function WithCode(w: World, a: Address, code: Bytes, startNonce: nat): World {
    w[a := Fetch(w, a, startNonce).(code := code)]
  }

  // ---------------------------------------------------------------------
  // What a reader sees of them
  // ---------------------------------------------------------------------

  function NonceAt(w: World, a: Address, startNonce: nat): nat {
    if a in w then w[a].nonce else startNonce
  }

  function CodeAt(w: World, a: Address): Bytes {
    if a in w then w[a].code else []
  }

  /** The trie of a new account holds nothing. */
  ghost predicate EmptyNullTrie(db: Backend) {
    forall k :: TrieSlot(db, NULL_ROOT, k) == 0
  }

  /** A write is read back, and nothing else changes for any reader. */
  lemma StorageLaws(db: Backend, w: World, a: Address, key: Word, value: Word, startNonce: nat)
    requires EmptyNullTrie(db)
    ensures
      var w' := WithStorage(db, w, a, key, value, startNonce);
      && SlotAt(db, w', a, key) == value
      && (forall k :: k != key ==> SlotAt(db, w', a, k) == SlotAt(db, w, a, k))
      && NonceAt(w', a, startNonce) == NonceAt(w, a, startNonce)
      && CodeAt(w', a) == CodeAt(w, a)
      && (forall b :: b != a ==> Get(w', b) == Get(w, b))
  {
  }

  lemma NonceLaws(db: Backend, w: World, a: Address, startNonce: nat)
    requires EmptyNullTrie(db)
    ensures
      var w' := WithNonceIncremented(w, a, startNonce);
      && NonceAt(w', a, startNonce) == NonceAt(w, a, startNonce) + 1
      && CodeAt(w', a) == CodeAt(w, a)
      && (forall k :: SlotAt(db, w', a, k) == SlotAt(db, w, a, k))
      && (forall b :: b != a ==> Get(w', b) == Get(w, b))
  {
  }

  lemma CodeLaws(db: Backend, w: World, a: Address, code: Bytes, startNonce: nat)
    requires EmptyNullTrie(db)
    ensures
      var w' := WithCode(w, a, code, startNonce);
      && CodeAt(w', a) == code
      && NonceAt(w', a, startNonce) == NonceAt(w, a, startNonce)
      && (forall k :: SlotAt(db, w', a, k) == SlotAt(db, w, a, k))
      && (forall b :: b != a ==> Get(w', b) == Get(w, b))
  {
  }

  /** A new contract has the nonce it is given, no code and empty storage. */
  lemma NewContractLaws(db: Backend, w: World, a: Address, nonce: nat)
    requires EmptyNullTrie(db)
    ensures
      var w' := w[a := ToPlain(NewBasic(nonce))];
      a in w' && w'[a].nonce == nonce && w'[a].code == [] && forall k :: SlotAt(db, w', a, k) == 0
  {
  }

  /** At first a reader sees what the databases hold. */
  lemma FirstWorld(db: Backend, a: Address, key: Word, startNonce: nat)
    ensures
      var w := map b | b in db.accounts :: ToPlain(FromRlp(db.accounts[b]));
      && (a in w <==> a in db.accounts)
      && (a in w ==>
            && NonceAt(w, a, startNonce) == db.accounts[a].nonce && CodeAt(w, a) == db.accounts[a].code
            && SlotAt(db, w, a, key) ==
               if db.accounts[a].root in db.tries then
                 (if key in db.tries[db.accounts[a].root] then db.tries[db.accounts[a].root][key] else 0)
               else 0)
  {
  }
}
