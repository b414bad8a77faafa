/** ldb/database.go: one physical key-value store, table views that prefix every key, and write
    batches. A view may sit on another view to any depth. LevelDB itself is a map. */
module Ldb {
  import opened Types

  type Store = map<string, string>

  class LDBDatabase {
    var kv: Store

    constructor ()
      ensures kv == map[]
    {
      kv := map[];
    }
  }

  // ldb.Database: the physical store, or a table over another database.
  datatype Database = Root(ldb: LDBDatabase) | Table(db: Database, prefix: string)

  function Physical(d: Database): LDBDatabase {
    match d
    case Root(ldb) => ldb
    case Table(db, _) => Physical(db)
  }

  // The prefix that every key written through `d` ends up with.
  function FullPrefix(d: Database): string {
    match d
    case Root(_) => ""
    case Table(db, prefix) => FullPrefix(db) + prefix
  }

  /** However deep a table lies, its prefix is those of the tables below it, outermost first. */
  lemma NestedPrefix(d: Database, p: string, q: string)
    ensures FullPrefix(Table(Table(d, p), q)) == FullPrefix(d) + p + q
    ensures Physical(Table(Table(d, p), q)) == Physical(d)
  {
    assert FullPrefix(Table(d, p)) == FullPrefix(d) + p && Physical(Table(d, p)) == Physical(d);
  }

  method Put(d: Database, key: string, value: string)
    modifies Physical(d)
    ensures Physical(d).kv == old(Physical(d).kv)[FullPrefix(d) + key := value]
    decreases d
  {
    match d
    case Root(ldb) =>
      assert FullPrefix(d) + key == key;
      ldb.kv := ldb.kv[key := value];
    case Table(db, prefix) =>
      assert FullPrefix(d) + key == FullPrefix(db) + (prefix + key);
      Put(db, prefix + key, value);
  }

  method Has(d: Database, key: string) returns (present: bool)
    ensures present <==> FullPrefix(d) + key in Physical(d).kv
    decreases d
  {
    match d
    case Root(ldb) =>
      assert FullPrefix(d) + key == key;
      present := key in ldb.kv;
    case Table(db, prefix) =>
      assert FullPrefix(d) + key == FullPrefix(db) + (prefix + key);
      present := Has(db, prefix + key);
  }

  method Get(d: Database, key: string) returns (value: Option<string>)
    ensures value == Lookup(Physical(d).kv, FullPrefix(d) + key)
    decreases d
  {
    match d
    case Root(ldb) =>
      assert FullPrefix(d) + key == key;
      value := Lookup(ldb.kv, key);
    case Table(db, prefix) =>
      assert FullPrefix(d) + key == FullPrefix(db) + (prefix + key);
      value := Get(db, prefix + key);
  }

  method Delete(d: Database, key: string)
    modifies Physical(d)
    ensures Physical(d).kv == old(Physical(d).kv) - {FullPrefix(d) + key}
    decreases d
  {
    match d
    case Root(ldb) =>
      assert FullPrefix(d) + key == key;
      ldb.kv := ldb.kv - {key};
    case Table(db, prefix) =>
      assert FullPrefix(d) + key == FullPrefix(db) + (prefix + key);
      Delete(db, prefix + key);
  }

  // A table does not restrict its iterator: it is a snapshot of the whole physical store.
  method NewIterator(d: Database) returns (snapshot: Store)
    ensures snapshot == Physical(d).kv
    decreases d
  {
    match d
    case Root(ldb) => snapshot := ldb.kv;
    case Table(db, _) => snapshot := NewIterator(db);
  }

  function Lookup(kv: Store, key: string): Option<string> {
    if key in kv then Some(kv[key]) else None
  }

  // Keys strictly longer than the prefix that begin with it.
  predicate Kfilter(prefix: string, key: string) {
    |key| > |prefix| && key[..|prefix|] == prefix
  }

  // ---------- the contents of a table ----------

  // `view` is what a table with this prefix holds.
  ghost predicate Shows(view: Store, kv: Store, prefix: string) {
    forall k {:trigger Lookup(view, k)} :: Lookup(view, k) == Lookup(kv, prefix + k)
  }

  /** A table on a table is one table with the concatenated prefix. */
  lemma NestedView(kv: Store, outer: string, inner: string, mid: Store, view: Store)
    requires Shows(mid, kv, outer)
    ensures Shows(view, mid, inner) <==> Shows(view, kv, outer + inner)
  {
    forall k ensures Lookup(mid, inner + k) == Lookup(kv, (outer + inner) + k) {
      assert (outer + inner) + k == outer + (inner + k);
    }
    if Shows(view, mid, inner) {
      forall k ensures Lookup(view, k) == Lookup(kv, (outer + inner) + k) {
      }
    } else {
      var k :| Lookup(view, k) != Lookup(mid, inner + k);
      assert Lookup(view, k) != Lookup(kv, (outer + inner) + k);
    }
  }

  /** Through its view, a write to a table is a plain map update, and a delete a plain removal. */
  lemma ViewAfterWrite(kv: Store, prefix: string, view: Store, key: string, value: string)
    requires Shows(view, kv, prefix)
    ensures Shows(view[key := value], kv[prefix + key := value], prefix)
    ensures Shows(view - {key}, kv - {prefix + key}, prefix)
  {
    forall k
      ensures Lookup(view[key := value], k) == Lookup(kv[prefix + key := value], prefix + k)
      ensures Lookup(view - {key}, k) == Lookup(kv - {prefix + key}, prefix + k)
    {
      SamePrefix(prefix, k, key);
      assert Lookup(view, k) == Lookup(kv, prefix + k);
    }
  }

  lemma SamePrefix(prefix: string, k: string, l: string)
    ensures prefix + k == prefix + l <==> k == l
  {
    assert (prefix + k)[|prefix|..] == k && (prefix + l)[|prefix|..] == l;
  }

  lemma CommonStart(p: string, k: string, q: string, l: string)
    requires !(p <= q) && !(q <= p)
    ensures p + k != q + l
  {
    var n := if |p| <= |q| then |p| else |q|;
    assert (p + k)[..n] == p[..n] && (q + l)[..n] == q[..n];
  }

  /** Two tables cannot see each other's writes exactly when neither prefix extends the other. */
  lemma TablesDisjointIff(p: string, q: string)
    ensures (forall k, l :: p + k != q + l) <==> !(p <= q) && !(q <= p)
  {
    if p <= q {
      assert p + (q[|p|..]) == q + "";
    } else if q <= p {
      assert q + (p[|q|..]) == p + "";
    } else {
      forall k, l ensures p + k != q + l {
        CommonStart(p, k, q, l);
      }
    }
  }

  // ---------- batches ----------

  datatype Write = Write(key: string, value: string)

  class LdbBatch {
    const db: LDBDatabase
    var writes: seq<Write>
    var size: nat

    constructor (db: LDBDatabase)
      ensures this.db == db && writes == [] && size == 0
    {
      this.db, writes, size := db, [], 0;
    }
  }

  // ldb.Batch: a physical batch, or a table batch over another batch.
  datatype Batch = RootBatch(b: LdbBatch) | TableBatch(batch: Batch, prefix: string)

  function Underlying(b: Batch): LdbBatch {
    match b
    case RootBatch(r) => r
    case TableBatch(batch, _) => Underlying(batch)
  }

  function BatchPrefix(b: Batch): string {
    match b
    case RootBatch(_) => ""
    case TableBatch(batch, prefix) => BatchPrefix(batch) + prefix
  }

  method NewBatch(d: Database) returns (b: Batch)
    ensures fresh(Underlying(b)) && Underlying(b).db == Physical(d)
    ensures BatchPrefix(b) == FullPrefix(d)
    ensures Underlying(b).writes == [] && Underlying(b).size == 0
    decreases d
  {
    match d
    case Root(ldb) =>
      var r := new LdbBatch(ldb);
      b := RootBatch(r);
    case Table(db, prefix) =>
      var inner := NewBatch(db);
      b := TableBatch(inner, prefix);
  }

  // The total length of the values in a list of writes.
  function ValueBytes(writes: seq<Write>): nat {
    if writes == [] then 0 else ValueBytes(writes[..|writes| - 1]) + |writes[|writes| - 1].value|
  }

  method BatchPut(b: Batch, key: string, value: string)
    requires Underlying(b).size == ValueBytes(Underlying(b).writes)
    modifies Underlying(b)
    ensures Underlying(b).writes == old(Underlying(b).writes) + [Write(BatchPrefix(b) + key, value)]
    ensures Underlying(b).size == old(Underlying(b).size) + |value| == ValueBytes(Underlying(b).writes)
    decreases b
  {
    match b
    case RootBatch(r) =>
      assert BatchPrefix(b) + key == key;
      ghost var writes := r.writes;
      r.writes := r.writes + [Write(key, value)];
      r.size := r.size + |value|;
      assert r.writes[..|r.writes| - 1] == writes;
    case TableBatch(batch, prefix) =>
      assert BatchPrefix(b) + key == BatchPrefix(batch) + (prefix + key);
      BatchPut(batch, prefix + key, value);
  }

  method ValueSize(b: Batch) returns (size: nat)
    requires Underlying(b).size == ValueBytes(Underlying(b).writes)
    ensures size == ValueBytes(Underlying(b).writes)
    decreases b
  {
    match b
    case RootBatch(r) => size := r.size;
    case TableBatch(batch, _) => size := ValueSize(batch);
  }

  // The writes applied one after the other.
  function Applied(kv: Store, writes: seq<Write>): Store {
    if writes == [] then kv
    else Applied(kv, writes[..|writes| - 1])[writes[|writes| - 1].key := writes[|writes| - 1].value]
  }

  // Committing does not empty the batch.
  method Commit(b: Batch)
    modifies Underlying(b).db
    ensures Underlying(b).db.kv == Applied(old(Underlying(b).db.kv), Underlying(b).writes)
    decreases b
  {
    match b
    case RootBatch(r) =>
      var kv := r.db.kv;
      var i := 0;
      while i < |r.writes|
        invariant 0 <= i <= |r.writes|
        invariant r.writes == old(r.writes)
        invariant kv == Applied(old(r.db.kv), r.writes[..i])
      {
        assert r.writes[..i + 1][..i] == r.writes[..i];
        kv := kv[r.writes[i].key := r.writes[i].value];
        i := i + 1;
      }
      assert r.writes[..i] == r.writes;
      r.db.kv := kv;
    case TableBatch(batch, _) => Commit(batch);
  }

  // Write `i` is the last one to `key`.
  ghost predicate IsLast(writes: seq<Write>, key: string, i: int) {
    && 0 <= i < |writes|
    && writes[i].key == key
    && (forall j :: i < j < |writes| ==> writes[j].key != key)
  }

  ghost predicate Untouched(writes: seq<Write>, key: string) {
    forall i :: 0 <= i < |writes| ==> writes[i].key != key
  }

  /** After a commit each key holds its last write in the batch, or what it held before. */
  lemma {:induction false} LastWriteWins(kv: Store, writes: seq<Write>, key: string)
    ensures Untouched(writes, key) ==> Lookup(Applied(kv, writes), key) == Lookup(kv, key)
    ensures forall i :: IsLast(writes, key, i) ==> Lookup(Applied(kv, writes), key) == Some(writes[i].value)
  {
    if writes != [] {
      var n := |writes| - 1;
      LastWriteWins(kv, writes[..n], key);
      forall i | IsLast(writes, key, i) && i < n ensures IsLast(writes[..n], key, i) {
      }
      assert Untouched(writes, key) ==> Untouched(writes[..n], key);
    }
  }

  /** The size counts the bytes of the values alone. */
  lemma OneWriteSize(key: string, value: string)
    ensures ValueBytes([Write(key, value)]) == |value|
  {
    assert [Write(key, value)][..0] == [];
  }

  /** Committing in two batches is committing their concatenation. */
  lemma {:induction false} AppliedConcat(kv: Store, a: seq<Write>, b: seq<Write>)
    ensures Applied(kv, a + b) == Applied(Applied(kv, a), b)
    ensures ValueBytes(a + b) == ValueBytes(a) + ValueBytes(b)
  {
    if b == [] {
      assert a + b == a;
    } else {
      assert (a + b)[..|a + b| - 1] == a + b[..|b| - 1];
      AppliedConcat(kv, a, b[..|b| - 1]);
    }
  }
}
