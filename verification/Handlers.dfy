/** The container handlers as they work on the database object, proved against the command functions. */
module Handlers {
  import opened Text
  import opened Resp
  import opened Objects
  import opened Replies
  import opened Commands
  import opened Expiry
  import opened HashSpec
  import opened HashTables
  import Timed
  import HashProofs
  import ScanRuns
  import HashScan
  import CommandProofs
  import opened Databases

  /** The command functions' view of table and heap. */
  ghost function ViewOf(s: Timed.Store<Value>): DB {
    map k | k in s.table :: Entry(s.table[k].value, s.table[k].expireAt, k in s.heap)
  }

  ghost function View(db: Database<Value>): DB
    requires db.Valid()
    reads db, db.Repr
  {
    ViewOf(db.State())
  }

  lemma LazyIsTouch(s: Timed.Store<Value>, now: int, k: Bytes)
    ensures ViewOf(Timed.Lazy(s, now, k)) == Touch(ViewOf(s), now, k)
    ensures Timed.Seen(s.table, now, k).Some? <==> k in Touch(ViewOf(s), now, k)
    ensures Timed.Agree(s) ==> Timed.Agree(Timed.Lazy(s, now, k))
  {
  }

  /** The entry of `key`, created with `empty` when there is no live one. */
  method Open(db: Database<Value>, now: int, key: Bytes, empty: Value) returns (e: HTEntry<Value>)
    requires db.Valid() && Timed.Agree(db.State())
    modifies db.Repr
    ensures db.Valid() && fresh(db.Repr - old(db.Repr)) && Timed.Agree(db.State())
    ensures var d := Touch(old(View(db)), now, key);
            View(db) == if key in d then d else d[key := Entry(empty, -1)]
    ensures e.key == key && db.table.HasEntry(e) && key in db.State().table
    ensures db.State().table[key] == Item(key, e.value, e.expireAt)
    ensures key in View(db) && View(db)[key].value == e.value
  {
    hide Database.Valid, HashProofs.Good, ScanRuns.CollectOne, HashProofs.DeadlineAfterSet, Timed.Agree, Touch, ViewOf;
    var f := Locate(db, now, key);
    if f == null {
      label Absent:
      ViewKeys(db.State(), key);
      db.SetObject(key, empty);
      InsertedView(old@Absent(db.State()), db.State(), key, empty);
      FreshStays(View(db), now, key);
      f := Locate(db, now, key);
    }
    e := f;
  }

  lemma ViewKeys(s: Timed.Store<Value>, k: Bytes)
    ensures k in ViewOf(s) <==> k in s.table
  {
  }

  lemma FreshStays(d: DB, now: int, k: Bytes)
    requires k in d && d[k].expireAt == -1
    ensures Touch(d, now, k) == d
  {
  }

  /** `findEntry`, seen from the commands. */
  method Locate(db: Database<Value>, now: int, key: Bytes) returns (e: HTEntry?<Value>)
    requires db.Valid() && Timed.Agree(db.State())
    modifies db.Repr
    ensures db.Valid() && fresh(db.Repr - old(db.Repr)) && Timed.Agree(db.State())
    ensures View(db) == Touch(old(View(db)), now, key)
    ensures e != null <==> key in View(db)
    ensures e != null ==> e.key == key && db.table.HasEntry(e) && key in db.State().table
    ensures e != null ==> db.State().table[key] == Item(key, e.value, e.expireAt) && View(db)[key].value == e.value
  {
    hide Database.Valid, HashProofs.Good, ScanRuns.CollectOne, HashProofs.DeadlineAfterSet, Timed.Agree, Touch;
    hide Timed.Lazy, Timed.Seen;
    LazyIsTouch(db.State(), now, key);
    e := db.FindEntry(key, now);
    if e != null {
      LiveEntry(old(db.State()), now, key);
    }
  }

  lemma InsertedView(s: Timed.Store<Value>, s': Timed.Store<Value>, k: Bytes, v: Value)
    requires Timed.Agree(s) && s'.heap == s.heap && k !in s.table && s'.table == s.table[k := Item(k, v, -1)]
    ensures ViewOf(s') == ViewOf(s)[k := Entry(v, -1)]
    ensures Timed.Agree(s')
  {
  }

  /** Write a new value through a found entry. */
  method Write(db: Database<Value>, e: HTEntry<Value>, v: Value)
    requires db.Valid() && Timed.Agree(db.State()) && db.table.HasEntry(e) && e.key in db.State().table
    requires db.State().table[e.key] == Item(e.key, e.value, e.expireAt)
    modifies db.Repr
    ensures db.Valid() && fresh(db.Repr - old(db.Repr))
    ensures View(db) == Commands.Store(old(View(db)), e.key, v)
    ensures Timed.Agree(db.State())
  {
    hide Database.Valid, HashProofs.Good, ScanRuns.CollectOne, HashProofs.DeadlineAfterSet;
    db.Update(e, v);
    UpdatedView(old(db.State()), e.key, v);
  }

  lemma UpdatedView(s: Timed.Store<Value>, k: Bytes, v: Value)
    requires k in s.table
    ensures var s' := s.(table := s.table[k := s.table[k].(value := v)]);
            && ViewOf(s') == Commands.Store(ViewOf(s), k, v)
            && (Timed.Agree(s) ==> Timed.Agree(s'))
  {
  }

  /** A key disappears when its container has become empty, otherwise the container is stored. */
  method WriteOrDelete(db: Database<Value>, e: HTEntry<Value>, v: Value, empty: bool)
    requires db.Valid() && Timed.Agree(db.State()) && db.table.HasEntry(e) && e.key in db.State().table
    requires db.State().table[e.key] == Item(e.key, e.value, e.expireAt)
    modifies db.Repr
    ensures db.Valid() && fresh(db.Repr - old(db.Repr))
    ensures View(db) == if empty then old(View(db)) - {e.key} else Commands.Store(old(View(db)), e.key, v)
    ensures Timed.Agree(db.State())
  {
    hide Database.Valid, HashProofs.Good, ScanRuns.CollectOne, HashProofs.DeadlineAfterSet;
    var key := e.key;
    if empty {
      var _ := db.Delete(key);
      DeletedView(old(db.State()), key);
    } else {
      Write(db, e, v);
    }
  }

  lemma DeletedView(s: Timed.Store<Value>, k: Bytes)
    ensures ViewOf(Timed.Delete(s, k)) == ViewOf(s) - {k}
    ensures Timed.Agree(s) ==> Timed.Agree(Timed.Delete(s, k))
  {
  }

  /** LPUSH and RPUSH. */
  method CmdPush(db: Database<Value>, now: int, a: Command, front: bool) returns (reply: Reply)
    requires db.Valid() && Timed.Agree(db.State()) && |a| >= 3
    modifies db.Repr
    ensures db.Valid() && fresh(db.Repr - old(db.Repr))
    ensures Outcome(View(db), reply) == PushList(old(View(db)), now, a, front)
    ensures Timed.Agree(db.State())
  {
    hide Database.Valid, HashProofs.Good, ScanRuns.CollectOne, HashProofs.DeadlineAfterSet, Timed.Agree, Touch, View, HashTable.HasEntry, Commands.Store, Words, Reversed, WRONGTYPE;
    var e := Open(db, now, a[1], List([]));
    if !e.value.List? {
      return WRONGTYPE;
    }
    var list := Pushed(e.value.items, a[2..], front);
    StoreTwice(Touch(old(View(db)), now, a[1]), a[1], List([]), List(list));
    Write(db, e, List(list));
    reply := Int(|list|);
  }

  lemma StoreTwice(d: DB, k: Bytes, v: Value, v': Value)
    ensures Commands.Store(if k in d then d else d[k := Entry(v, -1)], k, v') == Commands.Store(d, k, v')
  {
  }

  /** The push loops. */
  method Pushed(items: seq<Bytes>, words: seq<Bytes>, front: bool) returns (list: seq<Bytes>)
    ensures list == if front then Reversed(words) + items else items + words
  {
    list := items;
    var i := 0;
    assert words[..0] == [] && Reversed([]) == [];
    hide Reversed;
    while i < |words|
      invariant 0 <= i <= |words|
      invariant list == if front then Reversed(words[..i]) + items else items + words[..i]
    {
      CommandProofs.ReversedSnoc(words[..i], words[i]);
      assert words[..i + 1] == words[..i] + [words[i]];
      list := if front then [words[i]] + list else list + [words[i]];
      i := i + 1;
    }
    assert words[..i] == words;
  }

  /** LPOP and RPOP. */
  method CmdPop(db: Database<Value>, now: int, a: Command, front: bool) returns (reply: Reply)
    requires db.Valid() && Timed.Agree(db.State()) && |a| >= 2
    modifies db.Repr
    ensures db.Valid() && fresh(db.Repr - old(db.Repr))
    ensures Outcome(View(db), reply) == PopList(old(View(db)), now, a, front)
    ensures Timed.Agree(db.State())
  {
    hide Database.Valid, HashProofs.Good, ScanRuns.CollectOne, HashProofs.DeadlineAfterSet, Timed.Agree, Touch, View, HashTable.HasEntry, Commands.Store, Words, Reversed, WRONGTYPE;
    var e := Locate(db, now, a[1]);
    if e == null {
      return Null;
    }
    if !e.value.List? {
      return WRONGTYPE;
    }
    var list := e.value.items;
    if list == [] {
      return Null;
    }
    var val := if front then list[0] else list[|list| - 1];
    list := if front then list[1..] else list[..|list| - 1];
    WriteOrDelete(db, e, List(list), list == []);
    reply := BulkString(val);
  }

  lemma LiveEntry(s: Timed.Store<Value>, now: int, k: Bytes)
    requires Timed.Seen(s.table, now, k).Some?
    ensures k in Timed.Lazy(s, now, k).table && Timed.Lazy(s, now, k).table[k] == Timed.Seen(s.table, now, k).value
    ensures k in ViewOf(Timed.Lazy(s, now, k))
    ensures var it := Timed.Seen(s.table, now, k).value;
            ViewOf(Timed.Lazy(s, now, k))[k] == Entry(it.value, it.expireAt, k in Timed.Lazy(s, now, k).heap)
  {
  }

  /** HSET. */
  method CmdHSet(db: Database<Value>, now: int, a: Command) returns (reply: Reply)
    requires db.Valid() && Timed.Agree(db.State()) && |a| >= 4
    modifies db.Repr
    ensures db.Valid() && fresh(db.Repr - old(db.Repr))
    ensures Outcome(View(db), reply) == HSet(old(View(db)), now, a)
    ensures Timed.Agree(db.State())
  {
    hide Database.Valid, HashProofs.Good, ScanRuns.CollectOne, HashProofs.DeadlineAfterSet, Timed.Agree, Touch, PutFields, View, HashTable.HasEntry, Commands.Store, WRONGTYPE;
    if (|a| - 2) % 2 != 0 {
      return WrongNumber("hset");
    }
    var e := Open(db, now, a[1], Hash(map[]));
    if !e.value.Hash? {
      return WRONGTYPE;
    }
    HSetOpened(old(View(db)), now, a, e.value.fields);
    hide HSet;
    var fields, added := Emplaced(e.value.fields, a[2..]);
    StoreTwice(Touch(old(View(db)), now, a[1]), a[1], Hash(map[]), Hash(fields));
    Write(db, e, Hash(fields));
    reply := Int(added);
  }

  /** The emplace loop: the count of new fields is the growth of the map. */
  method Emplaced(h: map<Bytes, Bytes>, words: seq<Bytes>) returns (fields: map<Bytes, Bytes>, added: int)
    requires |words| % 2 == 0
    ensures fields == PutFields(h, words) && added == |fields| - |h|
  {
    fields, added := h, 0;
    var i := 0;
    assert words[0..] == words;
    while i < |words|
      invariant 0 <= i <= |words| && i % 2 == 0
      invariant PutFields(h, words) == PutFields(fields, words[i..]) && added == |fields| - |h|
    {
      assert words[i..][2..] == words[i + 2..];
      if words[i] !in fields {
        added := added + 1;
      }
      fields := fields[words[i] := words[i + 1]];
      i := i + 2;
    }
  }

  /** HDEL. */
  method CmdHDel(db: Database<Value>, now: int, a: Command) returns (reply: Reply)
    requires db.Valid() && Timed.Agree(db.State()) && |a| >= 3
    modifies db.Repr
    ensures db.Valid() && fresh(db.Repr - old(db.Repr))
    ensures Outcome(View(db), reply) == HDel(old(View(db)), now, a)
    ensures Timed.Agree(db.State())
  {
    hide Database.Valid, HashProofs.Good, ScanRuns.CollectOne, HashProofs.DeadlineAfterSet, Timed.Agree, Touch, View, HashTable.HasEntry, Commands.Store, Words, Reversed, WRONGTYPE;
    var e := Locate(db, now, a[1]);
    if e == null {
      return Int(0);
    }
    if !e.value.Hash? {
      return WRONGTYPE;
    }
    HDelFound(old(View(db)), now, a, e.value.fields);
    hide HDel;
    var fields, removed := Erased(e.value.fields, a[2..]);
    WriteOrDelete(db, e, Hash(fields), fields == map[]);
    reply := Int(removed);
  }

  lemma HDelFound(v: DB, now: int, a: Command, h: map<Bytes, Bytes>)
    requires |a| >= 3 && a[1] in Touch(v, now, a[1]) && Touch(v, now, a[1])[a[1]].value == Hash(h)
    ensures var d, h' := Touch(v, now, a[1]), h - Words(a[2..]);
            HDel(v, now, a) == Outcome(if h' == map[] then d - {a[1]} else Commands.Store(d, a[1], Hash(h')), Int(|h| - |h'|))
  {
    hide Touch, Commands.Store, Words;
  }

  lemma SRemFound(v: DB, now: int, a: Command, s: set<Bytes>)
    requires |a| >= 3 && a[1] in Touch(v, now, a[1]) && Touch(v, now, a[1])[a[1]].value == Objects.Set(s)
    ensures var d, s' := Touch(v, now, a[1]), s - Words(a[2..]);
            SRem(v, now, a) == Outcome(if s' == {} then d - {a[1]} else Commands.Store(d, a[1], Objects.Set(s')), Int(|s| - |s'|))
  {
    hide Touch, Commands.Store, Words;
  }

  lemma SAddOpened(v: DB, now: int, a: Command, s: set<Bytes>)
    requires |a| >= 3
    requires var d := Touch(v, now, a[1]); if a[1] in d then d[a[1]].value == Objects.Set(s) else s == {}
    ensures var d, s' := Touch(v, now, a[1]), s + Words(a[2..]);
            SAdd(v, now, a) == Outcome(Commands.Store(d, a[1], Objects.Set(s')), Int(|s'| - |s|))
  {
    hide Touch, Commands.Store, Words;
  }

  lemma HSetOpened(v: DB, now: int, a: Command, h: map<Bytes, Bytes>)
    requires |a| >= 4 && |a| % 2 == 0
    requires var d := Touch(v, now, a[1]); if a[1] in d then d[a[1]].value == Hash(h) else h == map[]
    ensures var d, h' := Touch(v, now, a[1]), PutFields(h, a[2..]);
            HSet(v, now, a) == Outcome(Commands.Store(d, a[1], Hash(h')), Int(|h'| - |h|))
  {
    hide Touch, Commands.Store, PutFields;
  }

  /** The erase loop: the count of erased fields is the loss of the map. */
  method Erased(h: map<Bytes, Bytes>, words: seq<Bytes>) returns (fields: map<Bytes, Bytes>, removed: int)
    ensures fields == h - Words(words) && removed == |h| - |fields|
  {
    hide Words;
    fields, removed := h, 0;
    NoWords();
    assert h - {} == h && words[..0] == [];
    var i := 0;
    while i < |words|
      invariant 0 <= i <= |words|
      invariant fields == h - Words(words[..i]) && removed == |h| - |fields|
    {
      MinusWords(h, words, i);
      HashProofs.CardMinus(fields, words[i]);
      if words[i] in fields {
        removed := removed + 1;
      }
      fields := fields - {words[i]};
      i := i + 1;
    }
    assert words[..i] == words;
  }

  lemma SetWords(s: set<Bytes>, words: seq<Bytes>, i: nat)
    requires i < |words|
    ensures s + Words(words[..i + 1]) == (s + Words(words[..i])) + {words[i]}
    ensures s - Words(words[..i + 1]) == (s - Words(words[..i])) - {words[i]}
  {
    assert words[..i + 1] == words[..i] + [words[i]];
    assert Words(words[..i + 1]) == Words(words[..i]) + {words[i]};
  }

  lemma NoWords()
    ensures Words([]) == {}
  {
  }

  lemma MinusWords<X>(h: map<Bytes, X>, words: seq<Bytes>, i: nat)
    requires i < |words|
    ensures h - Words(words[..i + 1]) == (h - Words(words[..i])) - {words[i]}
  {
    assert words[..i + 1] == words[..i] + [words[i]];
    assert Words(words[..i + 1]) == Words(words[..i]) + {words[i]};
  }

  /** SADD. */
  method CmdSAdd(db: Database<Value>, now: int, a: Command) returns (reply: Reply)
    requires db.Valid() && Timed.Agree(db.State()) && |a| >= 3
    modifies db.Repr
    ensures db.Valid() && fresh(db.Repr - old(db.Repr))
    ensures Outcome(View(db), reply) == SAdd(old(View(db)), now, a)
    ensures Timed.Agree(db.State())
  {
    hide Database.Valid, HashProofs.Good, ScanRuns.CollectOne, HashProofs.DeadlineAfterSet, Timed.Agree, Touch, View, HashTable.HasEntry, Commands.Store, Words, Reversed, WRONGTYPE;
    var e := Open(db, now, a[1], Objects.Set({}));
    if !e.value.Set? {
      return WRONGTYPE;
    }
    SAddOpened(old(View(db)), now, a, e.value.members);
    hide SAdd;
    var members, added := Inserted(e.value.members, a[2..]);
    StoreTwice(Touch(old(View(db)), now, a[1]), a[1], Objects.Set({}), Objects.Set(members));
    Write(db, e, Objects.Set(members));
    reply := Int(added);
  }

  method Inserted(s: set<Bytes>, words: seq<Bytes>) returns (members: set<Bytes>, added: int)
    ensures members == s + Words(words) && added == |members| - |s|
  {
    hide Words;
    members, added := s, 0;
    NoWords();
    assert words[..0] == [] && s + {} == s;
    var i := 0;
    while i < |words|
      invariant 0 <= i <= |words|
      invariant members == s + Words(words[..i]) && added == |members| - |s|
    {
      SetWords(s, words, i);
      if words[i] !in members {
        added := added + 1;
      } else {
        assert members + {words[i]} == members;
      }
      members := members + {words[i]};
      i := i + 1;
    }
    assert words[..i] == words;
  }

  /** SREM. */
  method CmdSRem(db: Database<Value>, now: int, a: Command) returns (reply: Reply)
    requires db.Valid() && Timed.Agree(db.State()) && |a| >= 3
    modifies db.Repr
    ensures db.Valid() && fresh(db.Repr - old(db.Repr))
    ensures Outcome(View(db), reply) == SRem(old(View(db)), now, a)
    ensures Timed.Agree(db.State())
  {
    hide Database.Valid, HashProofs.Good, ScanRuns.CollectOne, HashProofs.DeadlineAfterSet, Timed.Agree, Touch, View, HashTable.HasEntry, Commands.Store, Words, Reversed, WRONGTYPE;
    var e := Locate(db, now, a[1]);
    if e == null {
      return Int(0);
    }
    if !e.value.Set? {
      return WRONGTYPE;
    }
    SRemFound(old(View(db)), now, a, e.value.members);
    hide SRem;
    var members, removed := Discarded(e.value.members, a[2..]);
    WriteOrDelete(db, e, Objects.Set(members), members == {});
    reply := Int(removed);
  }

  method Discarded(s: set<Bytes>, words: seq<Bytes>) returns (members: set<Bytes>, removed: int)
    ensures members == s - Words(words) && removed == |s| - |members|
  {
    hide Words;
    members, removed := s, 0;
    NoWords();
    assert words[..0] == [] && s - {} == s;
    var i := 0;
    while i < |words|
      invariant 0 <= i <= |words|
      invariant members == s - Words(words[..i]) && removed == |s| - |members|
    {
      SetWords(s, words, i);
      if words[i] in members {
        removed := removed + 1;
      } else {
        assert members - {words[i]} == members;
      }
      members := members - {words[i]};
      i := i + 1;
    }
    assert words[..i] == words;
  }

  // ---------- strings, deadlines, SCAN ----------

  /** `Database::get`: the text of a live string, nothing for a key of another type. */
  method GetString(db: Database<Value>, now: int, key: Bytes) returns (v: Option<Bytes>)
    requires db.Valid() && Timed.Agree(db.State())
    modifies db.Repr
    ensures db.Valid() && fresh(db.Repr - old(db.Repr)) && Timed.Agree(db.State())
    ensures View(db) == Touch(old(View(db)), now, key)
    ensures v == if key in View(db) && View(db)[key].value.Str? then Some(AsString(View(db)[key].value.o)) else None
  {
    hide Database.Valid, HashProofs.Good, ScanRuns.CollectOne, Timed.Agree, Touch, ViewOf, AsString;
    var e := Locate(db, now, key);
    if e == null || !e.value.Str? {
      return None;
    }
    v := Some(AsString(e.value.o));
  }

  lemma ExpiredView(s: Timed.Store<Value>, now: int, k: Bytes, at: int)
    requires Timed.Agree(s)
    ensures var d := Touch(ViewOf(s), now, k);
            && (Timed.Seen(s.table, now, k).Some? <==> k in d)
            && ViewOf(Timed.SetExpire(s, now, k, at)) ==
               (if k in d then d[k := d[k].(expireAt := at, heaped := true)] else d)
            && Timed.Agree(Timed.SetExpire(s, now, k, at))
  {
    Timed.StepAgrees(s, now, Timed.Expire(k, at));
  }

  /** EXPIRE and PEXPIRE: the deadline goes to the entry and to the heap. */
  method CmdExpire(db: Database<Value>, now: int, a: Command, unit: int) returns (reply: Reply)
    requires db.Valid() && Timed.Agree(db.State()) && |a| >= 3
    modifies db.Repr
    ensures db.Valid() && fresh(db.Repr - old(db.Repr)) && Timed.Agree(db.State())
    ensures Outcome(View(db), reply) == ExpireAt(old(View(db)), now, a, unit)
  {
    hide Database.Valid, HashProofs.Good, ScanRuns.CollectOne, Timed.Agree, Touch, ViewOf, CreateString, NOT_AN_INTEGER;
    hide Timed.SetExpire, Timed.Seen;
    var n := CreateString(a[2]);
    if !n.Integer? {
      return NOT_AN_INTEGER;
    }
    ExpiredView(db.State(), now, a[1], now + n.i * unit);
    var ok := db.SetExpire(a[1], now, now + n.i * unit);
    reply := Int(if ok then 1 else 0);
  }

  lemma {:induction false} TouchAllSnoc(d: DB, now: int, ks: seq<Bytes>)
    requires ks != []
    ensures TouchAll(d, now, ks) == Touch(TouchAll(d, now, ks[..|ks| - 1]), now, ks[|ks| - 1])
    decreases |ks|
  {
    hide Touch;
    if |ks| == 1 {
      assert ks[1..] == [] && ks[..0] == [];
    } else {
      TouchAllSnoc(Touch(d, now, ks[0]), now, ks[1..]);
      assert ks[1..][..|ks| - 2] == ks[..|ks| - 1][1..];
    }
  }

  lemma {:induction false} LazyAllIsTouchAll(s: Timed.Store<Value>, now: int, ks: seq<Bytes>)
    ensures ViewOf(Timed.LazyAll(s, now, ks)) == TouchAll(ViewOf(s), now, ks)
    decreases |ks|
  {
    hide ViewOf, Touch, Timed.Lazy;
    if ks != [] {
      LazyAllIsTouchAll(s, now, ks[..|ks| - 1]);
      TouchAllSnoc(ViewOf(s), now, ks);
      LazyIsTouch(Timed.LazyAll(s, now, ks[..|ks| - 1]), now, ks[|ks| - 1]);
    }
  }

  lemma {:induction false} ShownAlike(s: Timed.Store<Value>, now: int, raw: seq<Bytes>, pattern: Bytes)
    ensures Timed.Shown(s.table, now, raw, pattern) == Shown(ViewOf(s), now, raw, pattern)
    decreases |raw|
  {
    hide ViewOf, Touch, Timed.Seen;
    if raw != [] {
      ShownAlike(s, now, raw[..|raw| - 1], pattern);
      LazyIsTouch(s, now, raw[|raw| - 1]);
    }
  }

  /** SCAN with parsed options: the raw page of the table, its live and matching keys, and the expired keys
      of the page collected. */
  method CmdScan(db: Database<Value>, now: int, req: ScanRequest) returns (next: nat, keys: seq<Bytes>, ghost raw: seq<Bytes>)
    requires db.Valid() && Timed.Agree(db.State()) && req.ScanRequest?
    modifies db.Repr
    ensures db.Valid() && fresh(db.Repr - old(db.Repr)) && Timed.Agree(db.State())
    ensures Shape(old(db.table.State()))
    ensures HashScan.Page(next, raw) ==
            HashScan.Scan(RehashStep(db.table.hash, old(db.table.State()), REHASH_BATCH), req.cursor, req.count)
    ensures View(db) == TouchAll(old(View(db)), now, raw) && keys == Shown(old(View(db)), now, raw, req.pattern)
    ensures var v := old(View(db));
            ShowsExactly(k => k in v && !(v[k].expireAt >= 0 && now >= v[k].expireAt), raw, req.pattern, keys)
  {
    hide Database.Valid, HashProofs.Good, ScanRuns.CollectOne, ScanRuns.DbAdvance, Timed.Agree, ViewOf, RehashStep, HashScan.Scan;
    hide Timed.Shown, Shown, Timed.LazyAll, TouchAll, ShowsExactly;
    next, keys, raw := db.ScanKeys(req.cursor, req.count, req.pattern, now);
    LazyAllIsTouchAll(old(db.State()), now, raw);
    ShownAlike(old(db.State()), now, raw, req.pattern);
    ShownWrittenOut(old(View(db)), now, raw, req.pattern);
    ScanAgrees(old(db.State()), now, raw);
  }

  /** What a page shows, written out. */
  lemma ShownWrittenOut(v: DB, now: int, raw: seq<Bytes>, pattern: Bytes)
    ensures ShowsExactly(k => k in v && !(v[k].expireAt >= 0 && now >= v[k].expireAt), raw, pattern, Shown(v, now, raw, pattern))
  {
    hide ShowsExactly, Filtered;
    var p, q := k => k in Touch(v, now, k), k => k in v && !(v[k].expireAt >= 0 && now >= v[k].expireAt);
    FilteredSame(raw, p, q, pattern);
    FilteredShows(raw, q, pattern);
  }

  lemma ScanAgrees(s: Timed.Store<Value>, now: int, raw: seq<Bytes>)
    requires Timed.Agree(s)
    ensures Timed.Agree(Timed.LazyAll(s, now, raw))
  {
    Timed.LazyAllAgrees(s, now, raw);
  }

  // ---------- the timer ----------

  ghost function Taken(expired: seq<Bytes>): set<Bytes> {
    set k | k in expired
  }

  /** `gone` is what a sweep of at most `maxWork` keys takes: keys whose deadline in the heap has come, the earliest first,
      and all of them when it takes fewer than it may. */
  ghost predicate SweptFrom(v: DB, now: int, maxWork: int, gone: set<Bytes>) {
    && (forall k :: k in gone ==> k in v && v[k].heaped && v[k].expireAt <= now)
    && (maxWork > 0 ==> |gone| <= maxWork) && (maxWork <= 0 ==> gone == {})
    && (|gone| < maxWork ==> forall k :: k in v && v[k].heaped && v[k].expireAt <= now ==> k in gone)
    && (forall k, x :: k in gone && x in v && v[x].heaped && x !in gone ==> k in v && v[k].expireAt <= v[x].expireAt)
  }

  lemma {:induction false} TakenCard(expired: seq<Bytes>)
    requires forall i, j :: 0 <= i < j < |expired| ==> expired[i] != expired[j]
    ensures |Taken(expired)| == |expired|
    decreases |expired|
  {
    if expired == [] {
      assert Taken(expired) == {};
    } else {
      var n := |expired| - 1;
      TakenCard(expired[..n]);
      assert expired == expired[..n] + [expired[n]];
      assert Taken(expired) == Taken(expired[..n]) + {expired[n]};
    }
  }

  /** A sweep takes its keys out of the commands' view. */
  lemma ActiveView(s: Timed.Store<Value>, now: int, maxWork: int, expired: seq<Bytes>)
    requires Timed.Agree(s) && Timed.Sweeps(s, now, maxWork, expired)
    ensures ViewOf(Timed.Active(s, expired)) == ViewOf(s) - Taken(expired) && Timed.Agree(Timed.Active(s, expired))
    ensures SweptFrom(ViewOf(s), now, maxWork, Taken(expired))
  {
    Timed.StepAgrees(s, now, Timed.Sweep(expired));
    TakenCard(expired);
    var v, gone := ViewOf(s), Taken(expired);
    forall k, x | k in gone && x in v && v[x].heaped && x !in gone
      ensures k in v && v[k].expireAt <= v[x].expireAt
    {
      var i :| 0 <= i < |expired| && expired[i] == k;
      assert x in s.heap - (set y | y in expired);
    }
  }

  /** The timer's `activeExpireCycle`, seen from the commands. */
  method ActiveExpire(db: Database<Value>, now: int, maxWork: int) returns (ghost gone: set<Bytes>)
    requires db.Valid() && Timed.Agree(db.State())
    modifies db.Repr
    ensures db.Valid() && fresh(db.Repr - old(db.Repr)) && Timed.Agree(db.State())
    ensures View(db) == old(View(db)) - gone && SweptFrom(old(View(db)), now, maxWork, gone)
  {
    hide Database.Valid, HashProofs.Good, Timed.Agree, ViewOf, Timed.Sweeps, Timed.Active, SweptFrom, Taken;
    ghost var expired := db.ActiveExpireCycle(now, maxWork);
    ActiveView(old(db.State()), now, maxWork, expired);
    gone := Taken(expired);
  }
}
