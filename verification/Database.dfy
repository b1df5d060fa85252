/** The database object: the hash table and the deadline heap together, with lazy and active expiry.
    Every method is proved equal to its counterpart on values in `Timed`. */
module Databases {
  import opened Text
  import opened HashSpec
  import HashProofs
  import HashScan
  import ScanRuns
  import opened Expiry
  import opened HashTables
  import opened TTLHeaps
  import Timed

  class Database<V> {
    const table: HashTable<V>
    var heap: TTLHeap
    ghost var Repr: set<object>

    ghost predicate Valid()
      reads this, Repr
      ensures Valid() ==> this in Repr && table in Repr && heap in Repr && Indexed(heap.heap, heap.keyToIndex)
      ensures Valid() ==> table.Repr <= Repr && HashProofs.Good(table.hash, table.State())
    {
      && this in Repr && table in Repr && table.Repr <= Repr && heap in Repr
      && this !in table.Repr && heap !in table.Repr && heap as object != this
      && table.Valid() && heap.Valid()
    }

    ghost function State(): Timed.Store<V>
      requires Valid()
      reads this, Repr
    {
      Timed.Store(table.contents, heap.Deadlines())
    }

    constructor (hash: Hash)
      ensures Valid() && fresh(Repr) && State() == Timed.Store(map[], map[])
    {
      var t := new HashTable<V>(hash);
      var h := new TTLHeap();
      table, heap := t, h;
      Repr := {this, h} + t.Repr;
    }

    /** `checkAndExpire`, once the deadline has been found to be due: heap first, then table. */
    method DropExpired(key: Bytes)
      requires Valid()
      modifies Repr
      ensures Valid() && fresh(Repr - old(Repr)) && State() == Timed.Delete(old(State()), key)
      ensures table.State() == Del(table.hash, old(table.State()), key)
    {
      hide HashTable.Valid, TTLHeap.Valid, HashProofs.Good, HashSpec.Set, Del, Modify, Lookup, HashProofs.DeadlineAfterSet;
      heap.Remove(key);
      var _ := table.DeleteKey(key);
      Repr := Repr + table.Repr;
    }

    method RehashBatch()
      requires Valid()
      modifies Repr
      ensures Valid() && fresh(Repr - old(Repr)) && State() == old(State())
    {
      hide HashTable.Valid, TTLHeap.Valid, HashProofs.Good, RehashStep;
      table.RehashSteps(REHASH_BATCH);
      Repr := Repr + table.Repr;
    }

    /** The lookup shared by all readers: find, then lazy expiry. */
    method FindLive(key: Bytes, now: int) returns (e: HTEntry?<V>)
      requires Valid()
      modifies Repr
      ensures Valid() && fresh(Repr - old(Repr)) && State() == Timed.Lazy(old(State()), now, key)
      ensures e != null <==> Timed.Seen(old(State()).table, now, key).Some?
      ensures e != null ==> e.key == key && table.HasEntry(e)
      ensures e != null ==> Timed.Seen(old(State()).table, now, key) == Some(Item(key, e.value, e.expireAt))
      ensures table.State() == ScanRuns.CollectOne(table.hash, old(table.State()), now, key)
    {
      hide HashTable.Valid, TTLHeap.Valid, HashProofs.Good, HashSpec.Set, Del, Modify, Lookup, HashProofs.DeadlineAfterSet;
      e := table.FindEntry(key);
      if e == null {
        return;
      }
      if e.expireAt < 0 {
        return;
      }
      if now < e.expireAt {
        return;
      }
      DropExpired(key);
      e := null;
    }
  
    /** `findEntry`. */
    method FindEntry(key: Bytes, now: int) returns (e: HTEntry?<V>)
      requires Valid()
      modifies Repr
      ensures Valid() && fresh(Repr - old(Repr)) && State() == Timed.Lazy(old(State()), now, key)
      ensures e != null <==> Timed.Seen(old(State()).table, now, key).Some?
      ensures e != null ==> e.key == key && table.HasEntry(e)
      ensures e != null ==> Timed.Seen(old(State()).table, now, key) == Some(Item(key, e.value, e.expireAt))
    {
      hide HashTable.Valid, TTLHeap.Valid, HashProofs.Good, HashSpec.Set, Del, Modify, Lookup, HashProofs.DeadlineAfterSet;
      RehashBatch();
      e := FindLive(key, now);
    }

    method Exists(key: Bytes, now: int) returns (found: bool)
      requires Valid()
      modifies Repr
      ensures Valid() && fresh(Repr - old(Repr)) && State() == Timed.Lazy(old(State()), now, key)
      ensures found == Timed.Seen(old(State()).table, now, key).Some?
    {
      hide HashTable.Valid, TTLHeap.Valid, HashProofs.Good, HashSpec.Set, Del, Modify, Lookup, HashProofs.DeadlineAfterSet;
      var e := FindEntry(key, now);
      found := e != null;
    }

    method TimeToLive(key: Bytes, now: int) returns (ms: int)
      requires Valid()
      modifies Repr
      ensures Valid() && fresh(Repr - old(Repr)) && State() == Timed.Lazy(old(State()), now, key)
      ensures ms == Timed.TimeLeft(Timed.Seen(old(State()).table, now, key), now)
    {
      hide HashTable.Valid, TTLHeap.Valid, HashProofs.Good, HashSpec.Set, Del, Modify, Lookup, HashProofs.DeadlineAfterSet;
      var e := FindLive(key, now);
      if e == null {
        return -2;
      }
      ms := if e.expireAt < 0 then -1 else e.expireAt - now;
    }

    /** `set`: store and clear any deadline, wherever the table kept the old entry. */
    method SetString(key: Bytes, v: V)
      requires Valid()
      modifies Repr
      ensures Valid() && fresh(Repr - old(Repr)) && State() == Timed.SetString(old(State()), key, v)
    {
      hide HashTable.Valid, TTLHeap.Valid, HashProofs.Good, HashSpec.Set, Del, Modify, Lookup, HashProofs.DeadlineAfterSet;
      heap.Remove(key);
      BindPlain(key, v);
    }

    /** The table's half of `setString`: the value goes in, then the deadline is cleared through the entry. */
    method BindPlain(key: Bytes, v: V)
      requires Valid()
      modifies table.Repr, this`Repr
      ensures Valid() && fresh(Repr - old(Repr)) && table.contents == old(table.contents)[key := Item(key, v, -1)]
    {
      hide HashTable.Valid, TTLHeap.Valid, HashProofs.Good, HashSpec.Set, Del, Modify, Lookup, HashProofs.DeadlineAfterSet;
      table.SetKey(key, v);
      Repr := Repr + table.Repr;
      var e := table.FindEntry(key);
      assert e != null;
      assert table.contents[key].value == v;
      table.WriteEntry(e, e.value, -1);
      Repr := Repr + table.Repr;
    }

    method Delete(key: Bytes) returns (found: bool)
      requires Valid()
      modifies Repr
      ensures Valid() && fresh(Repr - old(Repr)) && State() == Timed.Delete(old(State()), key)
      ensures found == (key in old(State()).table)
    {
      hide HashTable.Valid, TTLHeap.Valid, HashProofs.Good, HashSpec.Set, Del, Modify, Lookup, HashProofs.DeadlineAfterSet;
      heap.Remove(key);
      found := table.DeleteKey(key);
      Repr := Repr + table.Repr;
    }

    method SetExpire(key: Bytes, now: int, at: int) returns (ok: bool)
      requires Valid()
      modifies Repr
      ensures Valid() && fresh(Repr - old(Repr)) && State() == Timed.SetExpire(old(State()), now, key, at)
      ensures ok == Timed.Seen(old(State()).table, now, key).Some?
    {
      hide HashTable.Valid, TTLHeap.Valid, HashProofs.Good, HashSpec.Set, Del, Modify, Lookup, HashProofs.DeadlineAfterSet;
      var e := FindLive(key, now);
      if e == null {
        return false;
      }
      table.WriteEntry(e, e.value, at);
      Repr := Repr + table.Repr;
      heap.Push(key, at);
      ok := true;
    }

    method RemoveExpire(key: Bytes)
      requires Valid()
      modifies Repr
      ensures Valid() && fresh(Repr - old(Repr)) && State() == Timed.Persist(old(State()), key)
    {
      hide HashTable.Valid, TTLHeap.Valid, HashProofs.Good, HashSpec.Set, Del, Modify, Lookup, HashProofs.DeadlineAfterSet;
      var e := table.FindEntry(key);
      if e == null {
        return;
      }
      table.WriteEntry(e, e.value, -1);
      Repr := Repr + table.Repr;
      heap.Remove(key);
    }

    /** The handlers' write through an entry that `FindEntry` returned. */
    method Update(e: HTEntry<V>, v: V)
      requires Valid() && table.HasEntry(e) && e.key in State().table
      requires State().table[e.key] == Item(e.key, e.value, e.expireAt)
      modifies Repr
      ensures Valid() && fresh(Repr - old(Repr))
      ensures State() == old(State()).(table := old(State()).table[e.key := old(State()).table[e.key].(value := v)])
    {
      hide HashTable.Valid, TTLHeap.Valid, HashProofs.Good, HashSpec.Set, Del, Modify, Lookup, HashProofs.DeadlineAfterSet;
      table.WriteEntry(e, v, e.expireAt);
      Repr := Repr + table.Repr;
    }

    /** `setObject`.  The stored deadline is -1 for an absent key; otherwise it depends on which table
        held the entry, and agreement with the heap may be lost. */
    method SetObject(key: Bytes, v: V)
      requires Valid()
      modifies Repr
      ensures Valid() && fresh(Repr - old(Repr)) && State().heap == old(State()).heap
      ensures State().table ==
              old(State()).table[key := Item(key, v, HashProofs.DeadlineAfterSet(table.hash, old(table.State()), key))]
      ensures key !in old(State()).table ==> State().table == old(State()).table[key := Item(key, v, -1)]
    {
      hide HashTable.Valid, TTLHeap.Valid, HashProofs.Good, HashSpec.Set, Del, Modify, Lookup, HashProofs.DeadlineAfterSet;
      table.SetKey(key, v);
      Repr := Repr + table.Repr;
    }
  
    /** `activeExpireCycle`: what the heap gives up, the table deletes. */
    method ActiveExpireCycle(now: int, maxWork: int) returns (ghost expired: seq<Bytes>)
      requires Valid()
      modifies Repr
      ensures Valid() && fresh(Repr - old(Repr))
      ensures Timed.Sweeps(old(State()), now, maxWork, expired) && State() == Timed.Active(old(State()), expired)
    {
      hide HashTable.Valid, TTLHeap.Valid, HashProofs.Good, HashSpec.Set, Del, Modify, Lookup, HashProofs.DeadlineAfterSet;
      hide Timed.Sweeps, PoppedFrom;
      var due := heap.PopExpired(now, maxWork);
      Timed.MakeSweeps(old(State()), now, maxWork, due, heap.Deadlines());
      DeleteAll(due);
      expired := due;
    }

    method DeleteAll(keys: seq<Bytes>)
      requires Valid()
      modifies Repr
      ensures Valid() && fresh(Repr - old(Repr)) && heap == old(heap) && heap.Deadlines() == old(heap.Deadlines())
      ensures table.contents == old(table.contents) - (set k | k in keys)
    {
      hide HashTable.Valid, TTLHeap.Valid, HashProofs.Good, HashSpec.Set, Del, Modify, Lookup, HashProofs.DeadlineAfterSet;
      var i := 0;
      while i < |keys|
        invariant 0 <= i <= |keys|
        invariant Valid() && fresh(Repr - old(Repr)) && heap == old(heap) && heap.Deadlines() == old(heap.Deadlines())
        invariant table.contents == Timed.MinusAll(old(table.contents), keys[..i])
      {
        Timed.MinusOne(old(table.contents), keys, i);
        var _ := table.DeleteKey(keys[i]);
        Repr := Repr + table.Repr;
        i := i + 1;
      }
      assert keys[..i] == keys;
    }

    /** `scan`: one page of the table, without the keys that turn out to be expired. */
    method ScanKeys(cursor: nat, count: nat, pattern: Bytes, now: int)
      returns (next: nat, keys: seq<Bytes>, ghost raw: seq<Bytes>)
      requires Valid()
      modifies Repr
      ensures Valid() && fresh(Repr - old(Repr)) && State() == Timed.LazyAll(old(State()), now, raw)
      ensures Shape(old(table.State()))
      ensures HashScan.Page(next, raw) ==
              HashScan.Scan(RehashStep(table.hash, old(table.State()), REHASH_BATCH), cursor, count)
      ensures keys == Timed.Shown(old(State()).table, now, raw, pattern)
      ensures var t := old(State()).table;
              ShowsExactly(k => k in t && !(t[k].expireAt >= 0 && now >= t[k].expireAt), raw, pattern, keys)
      ensures ScanRuns.DbAdvance(table.hash, ScanRuns.Iteration(old(table.State()), cursor, {}, false), pattern, ScanRuns.ScanCall(now, count))
           == ScanRuns.Iteration(table.State(), next, (set k | k in keys), next == 0)
    {
      hide HashTable.Valid, TTLHeap.Valid, HashProofs.Good, HashSpec.Set, Del, Modify, Lookup, HashProofs.DeadlineAfterSet;
      hide HashSpec.Contents, RehashStep, HashScan.Scan, ShowsExactly, Timed.Shown;
      ShapeHolds();
      table.RehashSteps(REHASH_BATCH);
      Repr := Repr + table.Repr;
      ShapeHolds();
      var rawKeys;
      next, rawKeys := table.ScanPage(cursor, count);
      raw := rawKeys;
      keys := FilterLive(rawKeys, pattern, now);
      Timed.ShownExactly(old(State()).table, now, rawKeys, pattern);
    }

    lemma ShapeHolds()
      requires Valid()
      ensures Shape(table.State()) && table.contents == HashSpec.Contents(table.hash, table.State())
    {
      hide HashSpec.Contents, Loaded, Size, TTLHeap.Valid;
    }

    method FilterLive(raw: seq<Bytes>, pattern: Bytes, now: int) returns (keys: seq<Bytes>)
      requires Valid()
      modifies Repr
      ensures Valid() && fresh(Repr - old(Repr)) && State() == Timed.LazyAll(old(State()), now, raw)
      ensures keys == Timed.Shown(old(State()).table, now, raw, pattern)
      ensures table.State() == ScanRuns.Collected(table.hash, old(table.State()), now, raw)
    {
      hide HashTable.Valid, TTLHeap.Valid, HashProofs.Good, HashSpec.Set, Del, Modify, Lookup, HashProofs.DeadlineAfterSet;
      hide Timed.Shown, ScanRuns.CollectOne;
      keys := [];
      assert raw[..0] == [];
      Timed.ShownNone(State().table, now, pattern);
      ScanRuns.CollectedNone(table.hash, table.State(), now);
      var i := 0;
      while i < |raw|
        invariant 0 <= i <= |raw|
        invariant Valid() && fresh(Repr - old(Repr)) && State() == Timed.LazyAll(old(State()), now, raw[..i])
        invariant keys == Timed.Shown(old(State()).table, now, raw[..i], pattern)
        invariant table.State() == ScanRuns.Collected(table.hash, old(table.State()), now, raw[..i])
      {
        assert raw[..i + 1][..i] == raw[..i];
        Timed.ShownSnoc(old(State()).table, now, raw, i, pattern);
        ScanRuns.CollectedSnoc(table.hash, old(table.State()), now, raw, i);
        Timed.LazyAllSeen(old(State()), now, raw[..i], raw[i]);
        var e := FindLive(raw[i], now);
        if e != null && Matches(pattern, raw[i]) {
          keys := keys + [raw[i]];
        }
        i := i + 1;
      }
      assert raw[..i] == raw;
    }

    /** `keys`: every stored key once, expired or not. */
    method Keys() returns (ks: seq<Bytes>)
      requires Valid()
      modifies Repr
      ensures Valid() && fresh(Repr - old(Repr)) && State() == old(State())
      ensures forall k :: multiset(ks)[k] == if k in State().table then 1 else 0
    {
      hide HashTable.Valid, TTLHeap.Valid, HashProofs.Good, HashSpec.Set, Del, Modify, Lookup, HashProofs.DeadlineAfterSet;
      RehashBatch();
      ks := table.ListKeys();
    }

    /** `dbsize`: the sum of the two size counters. */
    method DbSize() returns (n: nat)
      requires Valid()
      ensures n == |State().table|
    {
      n := table.primary.size + table.rehash.size;
    }

    method FlushDb()
      requires Valid()
      modifies Repr
      ensures Valid() && fresh(Repr - old(Repr)) && State() == Timed.Store(map[], map[])
    {
      hide HashTable.Valid, TTLHeap.Valid, HashProofs.Good, HashSpec.Set, Del, Modify, Lookup, HashProofs.DeadlineAfterSet;
      table.FlushAll();
      heap := new TTLHeap();
      Repr := Repr + table.Repr + {heap};
    }
  }
}
