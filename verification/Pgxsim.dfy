/**
 The transactional store of internal/metadata/pgxsim/pgxsim.go.

 A transaction is described by the value `TxState` and functions on it; the classes `Store` and `Tx` are the
 mutable objects, and each of their methods is tied to its function.
 */
module Pgxsim {
  import opened Prelude
  import opened Sorting

  datatype Record = Record(key: string, value: string, attributes: map<string, string>, version: int)

  type Entries = map<string, Record>

  datatype AccessMode = ReadOnly | ReadWrite

  datatype TxError = ErrSerialization | ErrReadOnly | ErrClosed

  datatype TxState = TxState(
    mode: AccessMode,
    writes: map<string, Record>,
    deletes: set<string>,
    readset: map<string, int>,
    committed: bool,
    rolled: bool)

  function FreshTx(mode: AccessMode): TxState {
    TxState(mode, map[], {}, map[], false, false)
  }

  function Find(entries: Entries, key: string): Option<Record> {
    if key in entries then Some(entries[key]) else None
  }

  /** The number a transaction records for a key it read: 0 stands for "absent". */
  function VersionOf(r: Option<Record>): int {
    if r.Some? then r.value.version else 0
  }

  /** Every row sits under its own key. */
  ghost predicate Keyed(entries: Entries) {
    forall k :: k in entries ==> entries[k].key == k
  }

  /** And has a positive version, so that a recorded 0 can only mean "absent". */
  ghost predicate WellFormed(entries: Entries) {
    Keyed(entries) && forall k :: k in entries ==> entries[k].version >= 1
  }

  /** A commit of rows buffered under their own keys keeps a store keyed; `Put` buffers no others. */
  lemma CommitKeepsKeyed(tx: TxState, entries: Entries)
    requires Keyed(entries) && Keyed(tx.writes)
    ensures Keyed(TxCommit(tx, entries).1)
    ensures forall rec :: TxPut(tx, rec).Ok? ==> Keyed(TxPut(tx, rec).value.writes)
  {
  }

  /** A read reaches the store only when the transaction has neither written nor deleted the key. */
  predicate ReadsStore(tx: TxState, key: string) {
    key !in tx.writes && key !in tx.deletes
  }

  function TxGet(tx: TxState, entries: Entries, key: string): (TxState, Option<Record>) {
    if key in tx.writes then (tx, Some(tx.writes[key]))
    else if key in tx.deletes then (tx, None)
    else
      var r := Find(entries, key);
      (tx.(readset := tx.readset[key := VersionOf(r)]), r)
  }

  function TxPut(tx: TxState, rec: Record): Result<TxState, TxError> {
    if tx.mode == ReadOnly then Err(ErrReadOnly)
    else Ok(tx.(writes := tx.writes[rec.key := rec], deletes := tx.deletes - {rec.key}))
  }

  function TxDelete(tx: TxState, key: string): Result<TxState, TxError> {
    if tx.mode == ReadOnly then Err(ErrReadOnly)
    else Ok(tx.(writes := tx.writes - {key}, deletes := tx.deletes + {key}))
  }

  predicate Validates(tx: TxState, entries: Entries) {
    forall k :: k in tx.readset ==> VersionOf(Find(entries, k)) == tx.readset[k]
  }

  function Apply(tx: TxState, entries: Entries): Entries {
    (entries - tx.deletes) + tx.writes
  }

  /** The new transaction, the new store and the error, if any. */
  function TxCommit(tx: TxState, entries: Entries): (TxState, Entries, Option<TxError>) {
    if tx.committed || tx.rolled then (tx, entries, Some(ErrClosed))
    else if !Validates(tx, entries) then (tx.(rolled := true), entries, Some(ErrSerialization))
    else (tx.(committed := true), Apply(tx, entries), None)
  }

  function TxRollback(tx: TxState): TxState {
    if tx.committed || tx.rolled then tx else tx.(rolled := true)
  }

  predicate KeyLess(a: Record, b: Record) { LexLess(a.key, b.key) }

  lemma KeyLessIsStrictWeakOrder()
    ensures StrictWeakOrder(KeyLess)
  {
    forall x { LexIrreflexive(x); }
    forall x: Record, y: Record, z: Record | KeyLess(x, y) && KeyLess(y, z) ensures KeyLess(x, z) {
      LexTransitive(x.key, y.key, z.key);
    }
    forall x: Record, y: Record, z: Record | !KeyLess(x, y) && !KeyLess(y, z) ensures !KeyLess(x, z) {
      LexTotal(x.key, y.key);
      LexTotal(y.key, z.key);
      if KeyLess(x, z) && y.key != z.key && x.key != y.key {
        LexTransitive(x.key, z.key, y.key);
      }
    }
  }

  ghost predicate Ascending(items: seq<Record>) {
    forall i, j :: 0 <= i < j < |items| ==> LexLess(items[i].key, items[j].key)
  }

  /** `items` is the sorted listing of the rows whose key has the prefix. */
  ghost predicate IsListing(items: seq<Record>, entries: Entries, prefix: string) {
    && Ascending(items)
    && (forall i :: 0 <= i < |items| ==>
          prefix <= items[i].key && items[i].key in entries && entries[items[i].key] == items[i])
    && (forall k :: k in entries && prefix <= k ==> entries[k] in items)
  }

  function Versions(entries: Entries, prefix: string, keys: set<string>): map<string, int> {
    map k | k in keys && k in entries && prefix <= k :: entries[k].version
  }

  lemma VersionsMore(readset: map<string, int>, entries: Entries, prefix: string, keys: set<string>, k: string)
    requires k in entries
    ensures readset + Versions(entries, prefix, keys + {k}) ==
            if prefix <= k then (readset + Versions(entries, prefix, keys))[k := entries[k].version]
            else readset + Versions(entries, prefix, keys)
  {
  }

  /** The rows gathered after `List` has walked over `keys`, in any order. */
  ghost predicate Collected(items: seq<Record>, entries: Entries, prefix: string, keys: set<string>) {
    && (forall i :: 0 <= i < |items| ==>
          var k := items[i].key; prefix <= k && k in entries && k in keys && entries[k] == items[i])
    && (forall k :: k in keys && k in entries && prefix <= k ==> entries[k] in items)
    && (forall i, j :: 0 <= i < j < |items| ==> items[i].key != items[j].key)
  }

  lemma CollectMore(items: seq<Record>, entries: Entries, prefix: string, keys: set<string>, k: string)
    requires Keyed(entries) && Collected(items, entries, prefix, keys)
    requires k in entries && k !in keys && prefix <= k
    ensures Collected(items + [entries[k]], entries, prefix, keys + {k})
  {
    var more := items + [entries[k]];
    forall x | x in keys + {k} && x in entries && prefix <= x ensures entries[x] in more {
      if x == k { assert more[|items|] == entries[k]; }
    }
  }

  /** internal/metadata/pgxsim/pgxsim.go:49-57 */
  class Store {
    var entries: Entries

    constructor ()
      ensures entries == map[]
    {
      entries := map[];
    }

    /** Begins a transaction; anything but serializable isolation is refused. */
    method BeginTx(serializable: bool, mode: AccessMode) returns (tx: Tx?)
      ensures tx == null <==> !serializable
      ensures tx != null ==> fresh(tx) && tx.store == this && tx.State() == FreshTx(mode)
      ensures tx != null ==>
                && tx.mode == mode && !tx.committed && !tx.rolled
                && tx.writes == map[] && tx.deletes == {} && tx.readset == map[]
    {
      if !serializable {
        return null;
      }
      tx := new Tx(this, mode);
    }
  }

  /** internal/metadata/pgxsim/pgxsim.go:85-96 */
  class Tx {
    const store: Store
    const mode: AccessMode
    var writes: map<string, Record>
    var deletes: set<string>
    var readset: map<string, int>
    var committed: bool
    var rolled: bool

    ghost function State(): TxState
      reads this
    {
      TxState(mode, writes, deletes, readset, committed, rolled)
    }

    constructor (store: Store, mode: AccessMode)
      ensures this.store == store && State() == FreshTx(mode)
    {
      this.store, this.mode := store, mode;
      writes, deletes, readset := map[], {}, map[];
      committed, rolled := false, false;
    }

    method Get(key: string) returns (r: Option<Record>)
      modifies this`readset
      ensures (State(), r) == TxGet(old(State()), store.entries, key)
      ensures r == if key in writes then Some(writes[key])
                   else if key !in deletes && key in store.entries then Some(store.entries[key]) else None
      ensures readset == if key in writes || key in deletes then old(readset)
                         else old(readset)[key := if key in store.entries then store.entries[key].version else 0]
    {
      if key in writes {
        return Some(writes[key]);
      }
      if key in deletes {
        return None;
      }
      if key in store.entries {
        var rec := store.entries[key];
        readset := readset[key := rec.version];
        return Some(rec);
      }
      readset := readset[key := 0];
      return None;
    }

    method Put(rec: Record) returns (err: Option<TxError>)
      modifies this`writes, this`deletes
      ensures match TxPut(old(State()), rec)
              case Ok(tx) => err == None && State() == tx
              case Err(e) => err == Some(e) && State() == old(State())
      ensures if mode == ReadOnly then err == Some(ErrReadOnly) && writes == old(writes) && deletes == old(deletes)
              else err == None && writes == old(writes)[rec.key := rec] && deletes == old(deletes) - {rec.key}
    {
      if mode == ReadOnly {
        return Some(ErrReadOnly);
      }
      writes := writes[rec.key := rec];
      deletes := deletes - {rec.key};
      return None;
    }

    method Delete(key: string) returns (err: Option<TxError>)
      modifies this`writes, this`deletes
      ensures match TxDelete(old(State()), key)
              case Ok(tx) => err == None && State() == tx
              case Err(e) => err == Some(e) && State() == old(State())
      ensures if mode == ReadOnly then err == Some(ErrReadOnly) && writes == old(writes) && deletes == old(deletes)
              else err == None && writes == old(writes) - {key} && deletes == old(deletes) + {key}
    {
      if mode == ReadOnly {
        return Some(ErrReadOnly);
      }
      writes := writes - {key};
      deletes := deletes + {key};
      return None;
    }

    /** The loop over the read set. */
    method CheckReads() returns (ok: bool)
      ensures ok <==> Validates(State(), store.entries)
    {
      var keys := readset.Keys;
      while keys != {}
        invariant keys <= readset.Keys
        invariant forall k :: k in readset.Keys - keys ==> VersionOf(Find(store.entries, k)) == readset[k]
      {
        var key :| key in keys;
        if key !in store.entries {
          if readset[key] != 0 {
            return false;
          }
        } else if store.entries[key].version != readset[key] {
          return false;
        }
        keys := keys - {key};
      }
      return true;
    }

    /** Validates the read set, then applies deletes and writes; map iteration order is left open. */
    method Commit() returns (err: Option<TxError>)
      modifies this`committed, this`rolled, store`entries
      ensures (State(), store.entries, err) == TxCommit(old(State()), old(store.entries))
      ensures var closed := old(committed) || old(rolled);
              var valid := forall k :: k in readset ==>
                             readset[k] == if k in old(store.entries) then old(store.entries)[k].version else 0;
              && err == (if closed then Some(ErrClosed) else if valid then None else Some(ErrSerialization))
              && committed == (old(committed) || (!closed && valid)) && rolled == (old(rolled) || (!closed && !valid))
      ensures forall k :: Find(store.entries, k) ==
                          if err.Some? then Find(old(store.entries), k)
                          else if k in writes then Some(writes[k])
                          else if k in deletes then None else Find(old(store.entries), k)
    {
      if committed || rolled {
        return Some(ErrClosed);
      }
      var valid := CheckReads();
      if !valid {
        rolled := true;
        return Some(ErrSerialization);
      }
      var todo := deletes;
      while todo != {}
        invariant todo <= deletes && !committed && !rolled
        invariant store.entries == old(store.entries) - (deletes - todo)
      {
        var key :| key in todo;
        store.entries := store.entries - {key};
        todo := todo - {key};
      }
      assert deletes - todo == deletes;
      ghost var base := store.entries;
      todo := writes.Keys;
      while todo != {}
        invariant todo <= writes.Keys && !committed && !rolled
        invariant store.entries.Keys == base.Keys + (writes.Keys - todo)
        invariant forall k :: k in store.entries ==>
                    store.entries[k] == if k in writes && k !in todo then writes[k] else base[k]
      {
        var key :| key in todo;
        store.entries := store.entries[key := writes[key]];
        todo := todo - {key};
      }
      assert store.entries == base + writes;
      assert store.entries == Apply(old(State()), old(store.entries));
      committed := true;
      return None;
    }

    method Rollback()
      modifies this`rolled
      ensures State() == TxRollback(old(State()))
      ensures rolled == (old(rolled) || !committed)
    {
      if committed || rolled {
        return;
      }
      rolled := true;
    }

    method Gather(prefix: string) returns (items: seq<Record>)
      requires Keyed(store.entries)
      modifies this`readset
      ensures Collected(items, store.entries, prefix, store.entries.Keys)
      ensures readset == old(readset) + Versions(store.entries, prefix, store.entries.Keys)
    {
      items := [];
      var todo := store.entries.Keys;
      while todo != {}
        invariant todo <= store.entries.Keys
        invariant Collected(items, store.entries, prefix, store.entries.Keys - todo)
        invariant readset == old(readset) + Versions(store.entries, prefix, store.entries.Keys - todo)
      {
        var k :| k in todo;
        var done := store.entries.Keys - todo;
        todo := todo - {k};
        assert store.entries.Keys - todo == done + {k};
        VersionsMore(old(readset), store.entries, prefix, done, k);
        if prefix <= k {
          CollectMore(items, store.entries, prefix, done, k);
          items := items + [store.entries[k]];
          readset := readset[k := store.entries[k].version];
        }
      }
      assert store.entries.Keys - todo == store.entries.Keys;
    }

    /** Lists rows by prefix in key order; a positive limit cuts the listing. Every match is recorded as read. */
    method List(prefix: string, limit: int) returns (items: seq<Record>, ghost all: seq<Record>)
      requires Keyed(store.entries)
      modifies this`readset
      ensures IsListing(all, store.entries, prefix)
      ensures forall r :: r in all <==> r.key in store.entries && prefix <= r.key && store.entries[r.key] == r
      ensures forall i, j :: 0 <= i < j < |all| ==> LexLess(all[i].key, all[j].key)
      ensures items == if 0 < limit < |all| then all[..limit] else all
      ensures forall k :: k in readset <==> k in old(readset) || (k in store.entries && prefix <= k)
      ensures forall k :: k in readset ==>
                readset[k] == if k in store.entries && prefix <= k then store.entries[k].version else old(readset)[k]
      ensures readset == old(readset) + Versions(store.entries, prefix, store.entries.Keys)
    {
      items := Gather(prefix);
      ghost var collected := items;
      KeyLessIsStrictWeakOrder();
      items := Sorted(items, KeyLess);
      SortedListing(collected, items, store.entries, prefix);
      all := items;
      if limit > 0 && |items| > limit {
        items := items[..limit];
      }
    }
  }

  /** Sorting rows with distinct keys leaves exactly one possible listing. */
  lemma SortedListing(collected: seq<Record>, items: seq<Record>, entries: Entries, prefix: string)
    requires Keyed(entries)
    requires Collected(collected, entries, prefix, entries.Keys)
    requires SortedBy(items, KeyLess) && multiset(items) == multiset(collected)
    ensures IsListing(items, entries, prefix)
  {
    forall r ensures r in items <==> r in collected {
      assert r in items <==> r in multiset(items);
    }
    forall i, j | 0 <= i < j < |items| ensures LexLess(items[i].key, items[j].key) {
      assert !KeyLess(items[j], items[i]);
      LexTotal(items[i].key, items[j].key);
      if items[i].key == items[j].key {
        assert items[i] in collected && items[j] in collected;
        OnceInMultiset(collected, items[i]);
        TwiceInMultiset(items, i, j);
      }
    }
    forall i | 0 <= i < |items|
      ensures prefix <= items[i].key && items[i].key in entries && entries[items[i].key] == items[i]
    {
      assert items[i] in collected;
    }
  }

  /** The listing is unique, whatever order the map is walked in. */
  lemma {:induction false} ListingUnique(a: seq<Record>, b: seq<Record>, entries: Entries, prefix: string)
    requires IsListing(a, entries, prefix) && IsListing(b, entries, prefix)
    ensures a == b
  {
    AscendingUnique(a, b);
  }

  lemma {:induction false} AscendingUnique(a: seq<Record>, b: seq<Record>)
    requires Ascending(a) && Ascending(b)
    requires forall r :: r in a <==> r in b
    ensures a == b
  {
    if a != [] { assert a[0] in b; }
    if b != [] { assert b[0] in a; }
    if a != [] && b != [] {
      assert a[0] in b && b[0] in a;
      if a[0] != b[0] {
        LexTransitive(a[0].key, b[0].key, a[0].key);
        LexIrreflexive(a[0].key);
      }
      forall r ensures r in a[1..] <==> r in b[1..] {
        LexIrreflexive(a[0].key);
        if r in a[1..] { assert r in b; }
        if r in b[1..] { assert r in a; }
      }
      AscendingUnique(a[1..], b[1..]);
    }
  }
}
