/**
 The database with its caches (cita-chain/core/src/db.rs and `collect_garbage` in
 cita-chain/core/src/libchain/chain.rs): values are stored as untyped entries
 under hand-made byte keys, and remembered in caches under typed keys. The
 store is proved to behave as a plain map from typed keys to values.
 */
module CachedStore {
  import opened Basics
  import opened StoreKeys

  type Data(==, !new)

  /** The type a value is encoded as. */
  datatype Kind = HeaderKind | BodyKind | NumberKind | AddressKind | ReceiptsKind | BloomsKind | HashKind | ProofKind

  function KindOf(k: Key): Kind {
    match k
    case HeaderAt(_) => HeaderKind
    case BodyAt(_) => BodyKind
    case HeightOf(_) => NumberKind
    case AddressOf(_) => AddressKind
    case ReceiptsOf(_) => ReceiptsKind
    case BloomsAt(_, _) => BloomsKind
    case CurrentHash => HashKind
    case CurrentProof => ProofKind
    case CurrentHeight => NumberKind
  }

  /** An encoded value. Decoding it as another kind fails. */
  datatype Encoded = Encoded(kind: Kind, data: Data)

  datatype Place = Place(column: nat, bytes: seq<Byte>)

  function PlaceOf(k: Key): Place {
    Place(Column(k), Encode(k))
  }

  datatype Policy = Overwrite | Remove | Uncached

  datatype Write = Write(key: Key, data: Data, policy: Policy)

  /** The six caches are one map: a typed key tells which one it belongs to. */
  datatype Store = Store(db: map<Place, Encoded>, cache: map<Key, Data>)

  // ---------------------------------------------------------------------
  // Operations
  // ---------------------------------------------------------------------

  function Put(db: map<Place, Encoded>, w: Write): map<Place, Encoded> {
    db[PlaceOf(w.key) := Encoded(KindOf(w.key), w.data)]
  }

  function Remember(cache: map<Key, Data>, w: Write): map<Key, Data> {
    match w.policy
    case Overwrite => cache[w.key := w.data]
    case Remove => cache - {w.key}
    case Uncached => cache
  }

  /** Writes a batch, updating the caches as it is put together. */
  function Commit(s: Store, ws: seq<Write>): Store
    decreases |ws|
  {
    if ws == [] then s else Commit(Store(Put(s.db, ws[0]), Remember(s.cache, ws[0])), ws[1..])
  }

  /** What decoding the entry under a key gives, if it is of the right kind. */
  function Decode(e: Option<Encoded>, kind: Kind): Option<Data> {
    if e.Some? && e.value.kind == kind then Some(e.value.data) else None
  }

  function ReadDb(s: Store, k: Key): Option<Data> {
    Decode(Get(s.db, PlaceOf(k)), KindOf(k))
  }

  /** Reads from the cache or else from the database, remembering what was found. */
  function ReadWithCache(s: Store, k: Key): (Store, Option<Data>) {
    if k in s.cache then (s, Some(s.cache[k]))
    else
      var v := ReadDb(s, k);
      (if v.Some? then s.(cache := s.cache[k := v.value]) else s, v)
  }

  function ExistsWithCache(s: Store, k: Key): bool {
    k in s.cache || PlaceOf(k) in s.db
  }

  function Evict(s: Store, ids: set<Key>): Store {
    s.(cache := s.cache - ids)
  }

  // ---------------------------------------------------------------------
  // The plain map behind it
  // ---------------------------------------------------------------------

  /** The three reserved entries are never cached. */
  predicate Cacheable(k: Key) {
    !(k.CurrentHash? || k.CurrentProof? || k.CurrentHeight?)
  }

  predicate LegalWrite(w: Write) {
    Legal(w.key) && (w.policy.Uncached? <==> !Cacheable(w.key))
  }

  /** No entry is stored under a key of another kind, every entry holds what the
      plain map holds, and so does every cached value. */
  ghost predicate Refines(s: Store, plain: map<Key, Data>) {
    && (forall k :: k in plain ==> Legal(k))
    && (forall k :: Legal(k) ==>
          Get(s.db, PlaceOf(k)) == if k in plain then Some(Encoded(KindOf(k), plain[k])) else None)
    && (forall k :: k in s.cache ==> Cacheable(k) && Get(plain, k) == Some(s.cache[k]))
  }

  function WriteAll(plain: map<Key, Data>, ws: seq<Write>): map<Key, Data>
    decreases |ws|
  {
    if ws == [] then plain else WriteAll(plain[ws[0].key := ws[0].data], ws[1..])
  }

  /** Of the writes of a batch the last one to a key counts. */
  lemma {:induction false} LastWriteCounts(plain: map<Key, Data>, ws: seq<Write>, i: nat)
    requires i < |ws| && forall j :: i < j < |ws| ==> ws[j].key != ws[i].key
    ensures Get(WriteAll(plain, ws), ws[i].key) == Some(ws[i].data)
    decreases |ws|
  {
    if i == 0 {
      UnwrittenStays(plain[ws[0].key := ws[0].data], ws[1..], ws[0].key);
    } else {
      LastWriteCounts(plain[ws[0].key := ws[0].data], ws[1..], i - 1);
    }
  }

  lemma {:induction false} UnwrittenStays(plain: map<Key, Data>, ws: seq<Write>, k: Key)
    requires forall j :: 0 <= j < |ws| ==> ws[j].key != k
    ensures Get(WriteAll(plain, ws), k) == Get(plain, k)
    decreases |ws|
  {
    if ws != [] {
      UnwrittenStays(plain[ws[0].key := ws[0].data], ws[1..], k);
    }
  }

  /** A write remembers its value, or forgets the key; the rest of the cache stays. */
  lemma RememberLaws(cache: map<Key, Data>, w: Write, k: Key)
    ensures k != w.key ==> Get(Remember(cache, w), k) == Get(cache, k)
    ensures w.policy.Overwrite? ==> Get(Remember(cache, w), w.key) == Some(w.data)
    ensures w.policy.Remove? ==> w.key !in Remember(cache, w)
    ensures w.policy.Uncached? ==> Remember(cache, w) == cache
  {
  }

  /** A value read from the database is remembered; one that is not there is not. */
  lemma ReadRemembers(s: Store, k: Key)
    ensures
      var (t, v) := ReadWithCache(s, k);
      t.db == s.db && Get(t.cache, k) == v && forall j :: j != k ==> Get(t.cache, j) == Get(s.cache, j)
  {
  }

  lemma PutElsewhere(db: map<Place, Encoded>, w: Write, k: Key)
    requires Legal(w.key) && Legal(k)
    ensures Get(Put(db, w), PlaceOf(k)) == if k == w.key then Some(Encoded(KindOf(k), w.data)) else Get(db, PlaceOf(k))
  {
    if PlaceOf(k) == PlaceOf(w.key) {
      KeysApart(k, w.key);
    }
  }

  lemma WriteRefines(s: Store, plain: map<Key, Data>, w: Write)
    requires Refines(s, plain) && LegalWrite(w)
    ensures Refines(Store(Put(s.db, w), Remember(s.cache, w)), plain[w.key := w.data])
  {
    var plain1 := plain[w.key := w.data];
    forall k | Legal(k)
      ensures Get(Put(s.db, w), PlaceOf(k)) == if k in plain1 then Some(Encoded(KindOf(k), plain1[k])) else None
    {
      PutElsewhere(s.db, w, k);
    }
  }

  lemma {:induction false} CommitRefines(s: Store, plain: map<Key, Data>, ws: seq<Write>)
    requires Refines(s, plain) && forall i :: 0 <= i < |ws| ==> LegalWrite(ws[i])
    ensures Refines(Commit(s, ws), WriteAll(plain, ws))
    decreases |ws|
  {
    if ws != [] {
      WriteRefines(s, plain, ws[0]);
      CommitRefines(Store(Put(s.db, ws[0]), Remember(s.cache, ws[0])), plain[ws[0].key := ws[0].data], ws[1..]);
    }
  }

  // ---------------------------------------------------------------------
  // Runs
  // ---------------------------------------------------------------------

  datatype Op = CommitOp(writes: seq<Write>) | ReadOp(key: Key) | EvictOp(ids: set<Key>)

  predicate LegalOp(op: Op) {
    match op
    case CommitOp(ws) => forall i :: 0 <= i < |ws| ==> LegalWrite(ws[i])
    case ReadOp(k) => Legal(k) && Cacheable(k)
    case EvictOp(_) => true
  }

  function Step(s: Store, op: Op): Store {
    match op
    case CommitOp(ws) => Commit(s, ws)
    case ReadOp(k) => ReadWithCache(s, k).0
    case EvictOp(ids) => Evict(s, ids)
  }

  function RunStore(ops: seq<Op>): Store {
    if ops == [] then Store(map[], map[]) else Step(RunStore(ops[..|ops| - 1]), ops[|ops| - 1])
  }

  /** The same run on a plain map: only commits change it. */
  function RunPlain(ops: seq<Op>): map<Key, Data> {
    if ops == [] then map[]
    else
      var plain, op := RunPlain(ops[..|ops| - 1]), ops[|ops| - 1];
      if op.CommitOp? then WriteAll(plain, op.writes) else plain
  }

  lemma {:induction false} RunRefines(ops: seq<Op>)
    requires forall i :: 0 <= i < |ops| ==> LegalOp(ops[i])
    ensures Refines(RunStore(ops), RunPlain(ops))
  {
    if ops != [] {
      var n := |ops| - 1;
      RunRefines(ops[..n]);
      if ops[n].CommitOp? {
        CommitRefines(RunStore(ops[..n]), RunPlain(ops[..n]), ops[n].writes);
      }
    }
  }

  /** After any sequence of commits, cached reads and evictions, a cached read, a
      plain database read and a lookup in the plain map agree, and a value exists
      exactly when the plain map has it. */
  lemma CachedReadsArePlainReads(ops: seq<Op>, k: Key)
    requires forall i :: 0 <= i < |ops| ==> LegalOp(ops[i])
    requires Legal(k)
    ensures ReadWithCache(RunStore(ops), k).1 == ReadDb(RunStore(ops), k) == Get(RunPlain(ops), k)
    ensures ExistsWithCache(RunStore(ops), k) <==> k in RunPlain(ops)
  {
    RunRefines(ops);
  }

  // ---------------------------------------------------------------------
  // The store as an object
  // ---------------------------------------------------------------------

  lemma SameMap(m: map<Key, Data>, n: map<Key, Data>)
    requires forall k :: Get(m, k) == Get(n, k)
    ensures m == n
  {
    assert forall k :: k in m <==> Get(m, k).Some?;
    assert forall k :: k in m ==> Get(m, k) == Some(m[k]);
    assert forall k :: k in n <==> Get(n, k).Some?;
    assert forall k :: k in n ==> Get(n, k) == Some(n[k]);
  }

  class Database {
    var db: map<Place, Encoded>
    var cache: map<Key, Data>
    ghost var plain: map<Key, Data>

    ghost predicate Valid()
      reads this
    {
      Refines(Store(db, cache), plain)
    }

    constructor ()
      ensures Valid() && plain == map[]
    {
      db, cache, plain := map[], map[], map[];
    }

    method WriteWithCache(key: Key, value: Data, policy: Policy)
      requires Valid() && LegalWrite(Write(key, value, policy))
      modifies this
      ensures Valid() && plain == old(plain)[key := value]
      ensures cache == Remember(old(cache), Write(key, value, policy))
    {
      WriteRefines(Store(db, cache), plain, Write(key, value, policy));
      db := db[PlaceOf(key) := Encoded(KindOf(key), value)];
      match policy {
        case Overwrite => cache := cache[key := value];
        case Remove => cache := cache - {key};
        case Uncached =>
      }
      plain := plain[key := value];
    }

    /** Writes many values, in whatever order they come. */
    method ExtendWithCache(values: map<Key, Data>, policy: Policy)
      requires Valid() && forall k :: k in values ==> LegalWrite(Write(k, values[k], policy))
      modifies this
      ensures Valid() && plain == old(plain) + values
      ensures policy.Overwrite? ==> cache == old(cache) + values
      ensures policy.Remove? ==> cache == old(cache) - values.Keys
    {
      hide Refines, PlaceOf, Encode;
      var rest := values.Keys;
      while rest != {}
        invariant Valid() && rest <= values.Keys
        invariant forall k :: Get(plain, k) == if k in values && k !in rest then Some(values[k]) else Get(old(plain), k)
        invariant policy.Overwrite? ==>
                    forall k :: Get(cache, k) == if k in values && k !in rest then Some(values[k]) else Get(old(cache), k)
        invariant policy.Remove? ==>
                    forall k :: Get(cache, k) == if k in values && k !in rest then None else Get(old(cache), k)
        decreases rest
      {
        var k :| k in rest;
        WriteWithCache(k, values[k], policy);
        rest := rest - {k};
      }
      SameMap(plain, old(plain) + values);
      if policy.Overwrite? {
        SameMap(cache, old(cache) + values);
      } else if policy.Remove? {
        SameMap(cache, old(cache) - values.Keys);
      }
    }

    method ReadWithCache(key: Key) returns (value: Option<Data>)
      requires Valid() && Legal(key) && Cacheable(key)
      modifies `cache
      ensures Valid() && value == Get(plain, key)
    {
      if key in cache {
        return Some(cache[key]);
      }
      value := ReadDb(Store(db, cache), key);
      if value.Some? {
        cache := cache[key := value.value];
      }
    }

    method ExistsWithCache(key: Key) returns (found: bool)
      requires Valid() && Legal(key)
      ensures found <==> key in plain
    {
      if key in cache {
        return true;
      }
      found := PlaceOf(key) in db;
    }

    /** Forgets cached values; nothing a reader sees changes. */
    method Forget(ids: set<Key>)
      requires Valid()
      modifies `cache
      ensures Valid() && cache == old(cache) - ids
    {
      cache := cache - ids;
    }
  }
}
