/** What every command of the table does, from the words a client sends: in upper or lower case, for every number of
    words, for absent, expired, well-typed and ill-typed keys. */
module WordLaws {
  import opened Text
  import opened Resp
  import opened Objects
  import opened Replies
  import opened Commands
  import opened Executor

  /** `w` is the upper-case text `name` with any of its letters in lower case. */
  predicate Spells(w: Bytes, name: Bytes) {
    && |w| == |name|
    && forall i :: 0 <= i < |w| ==> w[i] == name[i] || ('A' <= name[i] <= 'Z' && w[i] as int == name[i] as int + 32)
  }

  predicate NoLower(s: Bytes) {
    forall i :: 0 <= i < |s| ==> !('a' <= s[i] <= 'z')
  }

  lemma SpellsIff(w: Bytes, name: Bytes)
    requires NoLower(name)
    ensures Spells(w, name) <==> Upper(w) == name
  {
    if Upper(w) == name {
      forall i | 0 <= i < |w|
        ensures w[i] == name[i] || ('A' <= name[i] <= 'Z' && w[i] as int == name[i] as int + 32)
      {
        assert Upper(w)[i] == name[i];
      }
    }
    if Spells(w, name) {
      assert forall i :: 0 <= i < |w| ==> Upper(w)[i] == name[i];
    }
  }

  function Spelling(c: Name): Bytes {
    match c
    case PING => "PING"
    case SET => "SET"
    case GET => "GET"
    case DEL => "DEL"
    case EXISTS => "EXISTS"
    case KEYS => "KEYS"
    case EXPIRE => "EXPIRE"
    case TTL => "TTL"
    case PEXPIRE => "PEXPIRE"
    case PTTL => "PTTL"
    case DBSIZE => "DBSIZE"
    case SCAN => "SCAN"
    case LPUSH => "LPUSH"
    case RPUSH => "RPUSH"
    case LPOP => "LPOP"
    case RPOP => "RPOP"
    case LLEN => "LLEN"
    case LRANGE => "LRANGE"
    case HSET => "HSET"
    case HGET => "HGET"
    case HDEL => "HDEL"
    case HGETALL => "HGETALL"
    case HLEN => "HLEN"
    case SADD => "SADD"
    case SREM => "SREM"
    case SISMEMBER => "SISMEMBER"
    case SMEMBERS => "SMEMBERS"
    case SCARD => "SCARD"
    case ZADD => "ZADD"
    case ZSCORE => "ZSCORE"
    case ZRANK => "ZRANK"
    case ZRANGE => "ZRANGE"
    case ZCARD => "ZCARD"
    case ZREM => "ZREM"
    case FLUSHDB => "FLUSHDB"
    case INFO => "INFO"
  }

  lemma Named(w: Bytes, c: Name)
    requires Upper(w) == Spelling(c)
    ensures NameOf(w) == Some(c)
  {
    hide Upper;
  }

  /** A word that spells no name of the table has no handler. */
  lemma NamedOnly(w: Bytes)
    ensures NameOf(w).Some? ==> Upper(w) == Spelling(NameOf(w).value)
  {
    hide Upper;
  }
  lemma SpellingUpper(c: Name)
    ensures NoLower(Spelling(c))
  {
    match c
    case _ =>
  }

  // ---------- the table ----------

  /** How many words a command may have, its name included. */
  predicate Allowed(name: Bytes, n: nat) {
    if name in {"PING", "FLUSHDB", "INFO"} then n >= 1
    else if name == "DBSIZE" then n == 1
    else if name in {"GET", "KEYS", "TTL", "PTTL", "LPOP", "RPOP", "LLEN", "HGETALL", "HLEN", "SMEMBERS", "SCARD", "ZCARD"} then n == 2
    else if name in {"DEL", "EXISTS", "SCAN"} then n >= 2
    else if name in {"SET", "EXPIRE", "PEXPIRE", "HGET", "SISMEMBER", "ZSCORE", "ZRANK"} then n == 3
    else if name in {"LPUSH", "RPUSH", "HDEL", "SADD", "SREM", "ZREM"} then n >= 3
    else if name == "LRANGE" then n == 4
    else name in {"HSET", "ZADD", "ZRANGE"} && n >= 4
  }

  lemma AllowedIff(c: Name, n: nat)
    ensures Allowed(Spelling(c), n) <==> Fits(c, n)
  {
    match c
    case _ =>
  }

  lemma Runs(env: Env, now: int, db: DB, a: Command, c: Name)
    requires a != [] && Spells(a[0], Spelling(c)) && Fits(c, |a|)
    ensures Dispatch(env, now, db, a) == Exec(env, now, db, c, a)
  {
    hide Spells, Spelling, NameOf, Fits, Exec, Upper;
    SpellingUpper(c);
    SpellsIff(a[0], Spelling(c));
    Named(a[0], c);
  }

  /** A known command with a number of words it may not have changes nothing and is told so under its own name. */
  lemma WrongCount(env: Env, now: int, db: DB, a: Command, c: Name)
    requires a != [] && Spells(a[0], Spelling(c)) && !Allowed(Spelling(c), |a|)
    ensures Dispatch(env, now, db, a)
         == Outcome(db, Error("ERR wrong number of arguments for '" + Spelling(c) + "' command"))
  {
    hide Spells, Spelling, NameOf, Fits, Exec, Upper, Allowed;
    SpellingUpper(c);
    SpellsIff(a[0], Spelling(c));
    Named(a[0], c);
    AllowedIff(c, |a|);
  }

  /** A word that spells none of the 36 names changes nothing and is named in the reply. */
  lemma UnknownWord(env: Env, now: int, db: DB, a: Command)
    requires a != [] && forall c: Name :: !Spells(a[0], Spelling(c))
    ensures Dispatch(env, now, db, a) == Outcome(db, Error("ERR unknown command '" + a[0] + "'"))
  {
    hide Spells, Spelling, NameOf, Exec, Upper;
    if NameOf(a[0]).Some? {
      NotNamed(a[0], NameOf(a[0]).value);
    }
  }

  lemma NotNamed(w: Bytes, c: Name)
    requires !Spells(w, Spelling(c))
    ensures NameOf(w) != Some(c)
  {
    hide Spells, Spelling, NameOf, Upper;
    SpellingUpper(c);
    SpellsIff(w, Spelling(c));
    NamedOnly(w);
  }

  const WRITES: set<Bytes> :=
    {"SET", "DEL", "EXPIRE", "PEXPIRE", "LPUSH", "RPUSH", "LPOP", "RPOP", "HSET", "HDEL", "SADD", "SREM", "ZADD", "ZREM", "FLUSHDB"}

  lemma WritesAre(c: Name)
    ensures IsWrite(c) <==> Spelling(c) in WRITES
  {
    match c
    case _ =>
  }

  /** The commands that are logged are exactly the fifteen writers, in any case. */
  lemma LoggedIff(w: Bytes)
    ensures IsWriteCommand(w) <==> exists c: Name :: Spelling(c) in WRITES && Spells(w, Spelling(c))
  {
    hide Spells, Spelling, NameOf, Upper, IsWrite, WRITES;
    if IsWriteCommand(w) {
      var c := NameOf(w).value;
      NamedOnly(w);
      SpellingUpper(c);
      SpellsIff(w, Spelling(c));
      WritesAre(c);
      assert Spelling(c) in WRITES && Spells(w, Spelling(c));
    }
    if c: Name :| Spelling(c) in WRITES && Spells(w, Spelling(c)) {
      SpellingUpper(c);
      SpellsIff(w, Spelling(c));
      Named(w, c);
      WritesAre(c);
    }
  }

  // ---------- lookups, written out ----------

  /** The value that a lookup of `k` finds: none when the key is absent or its deadline has come. */
  function Look(db: DB, now: int, k: Bytes): Option<Value> {
    if k in db && (db[k].expireAt < 0 || now < db[k].expireAt) then Some(db[k].value) else None
  }

  /** The database after that lookup: an expired key is gone. */
  function After(db: DB, now: int, k: Bytes): DB {
    if k in db && Look(db, now, k).None? then db - {k} else db
  }

  /** The database after lookups of all of `ks`. */
  function AfterAll(db: DB, now: int, ks: seq<Bytes>): DB {
    map k | k in db && !(k in ks && Look(db, now, k).None?) :: db[k]
  }

  /** `k` bound to `v`; the deadline of an entry already there stays. */
  function Put(db: DB, k: Bytes, v: Value): DB {
    if k in db then db[k := Entry(v, db[k].expireAt, db[k].heaped)] else db[k := Entry(v, -1, false)]
  }

  const WRONG_TYPE: Reply := Error("WRONGTYPE Operation against a key " + "holding the wrong kind of value")

  lemma LookIs(db: DB, now: int, k: Bytes)
    ensures Touch(db, now, k) == After(db, now, k)
    ensures k in After(db, now, k) <==> Look(db, now, k).Some?
    ensures k in After(db, now, k) ==> After(db, now, k)[k].value == Look(db, now, k).value
  {
  }

  lemma PutIs(db: DB, k: Bytes, v: Value)
    ensures Commands.Store(db, k, v) == Put(db, k, v)
  {
  }

  lemma {:induction false} TouchAllIs(db: DB, now: int, ks: seq<Bytes>)
    ensures TouchAll(db, now, ks) == AfterAll(db, now, ks)
    decreases |ks|
  {
    if ks != [] {
      TouchAllIs(Touch(db, now, ks[0]), now, ks[1..]);
      assert ks == [ks[0]] + ks[1..];
    }
  }

  ghost function LiveAt(db: DB, now: int, ks: seq<Bytes>): set<nat> {
    set i: nat | i < |ks| && Look(db, now, ks[i]).Some?
  }

  lemma {:induction false} CountLiveIs(db: DB, now: int, ks: seq<Bytes>)
    ensures CountLive(db, now, ks) == |LiveAt(db, now, ks)|
    decreases |ks|
  {
    if ks == [] {
      assert LiveAt(db, now, ks) == {};
    } else {
      var d, rest := Touch(db, now, ks[0]), ks[1..];
      CountLiveIs(d, now, rest);
      LiveAtStep(db, now, ks);
      UpCard(LiveAt(d, now, rest));
    }
  }

  /** Every number of `s` moved up by one. */
  ghost function Up(s: set<nat>): set<nat> {
    set i | i in s :: i + 1
  }

  lemma {:induction false} UpCard(s: set<nat>)
    ensures |Up(s)| == |s|
    decreases s
  {
    if s == {} {
      assert Up(s) == {};
    } else {
      var i: nat :| i in s;
      UpCard(s - {i});
      forall j | j in Up(s)
        ensures j in Up(s - {i}) + {i + 1}
      {
        var m :| m in s && j == m + 1;
        assert m == i || m in s - {i};
      }
      assert i + 1 in Up(s);
      assert Up(s) == Up(s - {i}) + {i + 1};
    }
  }

  lemma LiveAtStep(db: DB, now: int, ks: seq<Bytes>)
    requires ks != []
    ensures LiveAt(db, now, ks)
         == Up(LiveAt(Touch(db, now, ks[0]), now, ks[1..])) + (if Look(db, now, ks[0]).Some? then {0} else {})
  {
    var d, rest := Touch(db, now, ks[0]), ks[1..];
    forall k ensures Look(d, now, k) == Look(db, now, k) {}
    hide Look, Touch;
    forall j: nat
      ensures j in LiveAt(db, now, ks) <==> j in Up(LiveAt(d, now, rest)) || (j == 0 && Look(db, now, ks[0]).Some?)
    {
      if j > 0 && j < |ks| {
        assert ks[j] == rest[j - 1];
        assert j - 1 in LiveAt(d, now, rest) <==> j in LiveAt(db, now, ks);
      }
    }
  }
}
