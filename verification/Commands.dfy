/** The command table and the handlers, as functions on a map from keys to entries.

    `now` is the single clock reading of a dispatch.  What the C++ leaves to iteration order, to
    floating-point text and to server statistics comes in through `Env`.
 */
module Commands {
  import opened Text
  import opened Resp
  import opened SortedPairs
  import opened Objects
  import opened Replies
  import opened Expiry
  import Skiplists
  import ZSets

  /** `heaped`: the deadline is also in the deadline heap, with the same time. */
  datatype Entry = Entry(value: Value, expireAt: int, heaped: bool := false)

  type DB = map<Bytes, Entry>

  /** `order` is the order in which call number `call` iterates a container, `scan` gives the next cursor and the raw
      keys of its page, which depend on the layout of the hash table; `subs` is the order of a connection's channels. */
  datatype Env = Env(
    parseScore: Bytes -> Score,
    printScore: Score -> Bytes,
    order: (nat, set<Bytes>) -> seq<Bytes>,
    subs: set<Bytes> -> seq<Bytes>,
    scan: (nat, DB, nat, nat) -> (nat, seq<Bytes>),
    info: (nat, Command) -> Bytes,
    call: nat)

  /** The environment of call number `n`. */
  function At(env: Env, n: nat): Env {
    env.(call := n)
  }

  datatype Outcome = Outcome(db: DB, reply: Reply)

  // ---------- the command table ----------

  datatype Name =
    | PING | SET | GET | DEL | EXISTS | KEYS | EXPIRE | TTL | PEXPIRE | PTTL | DBSIZE | SCAN
    | LPUSH | RPUSH | LPOP | RPOP | LLEN | LRANGE
    | HSET | HGET | HDEL | HGETALL | HLEN
    | SADD | SREM | SISMEMBER | SMEMBERS | SCARD
    | ZADD | ZSCORE | ZRANK | ZRANGE | ZCARD | ZREM
    | FLUSHDB | INFO

  function NameOf(s: Bytes): Option<Name> {
    match Upper(s)
    case "PING" => Some(PING)
    case "SET" => Some(SET)
    case "GET" => Some(GET)
    case "DEL" => Some(DEL)
    case "EXISTS" => Some(EXISTS)
    case "KEYS" => Some(KEYS)
    case "EXPIRE" => Some(EXPIRE)
    case "TTL" => Some(TTL)
    case "PEXPIRE" => Some(PEXPIRE)
    case "PTTL" => Some(PTTL)
    case "DBSIZE" => Some(DBSIZE)
    case "SCAN" => Some(SCAN)
    case "LPUSH" => Some(LPUSH)
    case "RPUSH" => Some(RPUSH)
    case "LPOP" => Some(LPOP)
    case "RPOP" => Some(RPOP)
    case "LLEN" => Some(LLEN)
    case "LRANGE" => Some(LRANGE)
    case "HSET" => Some(HSET)
    case "HGET" => Some(HGET)
    case "HDEL" => Some(HDEL)
    case "HGETALL" => Some(HGETALL)
    case "HLEN" => Some(HLEN)
    case "SADD" => Some(SADD)
    case "SREM" => Some(SREM)
    case "SISMEMBER" => Some(SISMEMBER)
    case "SMEMBERS" => Some(SMEMBERS)
    case "SCARD" => Some(SCARD)
    case "ZADD" => Some(ZADD)
    case "ZSCORE" => Some(ZSCORE)
    case "ZRANK" => Some(ZRANK)
    case "ZRANGE" => Some(ZRANGE)
    case "ZCARD" => Some(ZCARD)
    case "ZREM" => Some(ZREM)
    case "FLUSHDB" => Some(FLUSHDB)
    case "INFO" => Some(INFO)
    case _ => None
  }

  /** Positive: exactly that many words; negative: at least that many. */
  function Arity(c: Name): int {
    match c
    case PING => -1
    case SET => 3
    case GET => 2
    case DEL => -2
    case EXISTS => -2
    case KEYS => 2
    case EXPIRE => 3
    case TTL => 2
    case PEXPIRE => 3
    case PTTL => 2
    case DBSIZE => 1
    case SCAN => -2
    case LPUSH => -3
    case RPUSH => -3
    case LPOP => 2
    case RPOP => 2
    case LLEN => 2
    case LRANGE => 4
    case HSET => -4
    case HGET => 3
    case HDEL => -3
    case HGETALL => 2
    case HLEN => 2
    case SADD => -3
    case SREM => -3
    case SISMEMBER => 3
    case SMEMBERS => 2
    case SCARD => 2
    case ZADD => -4
    case ZSCORE => 3
    case ZRANK => 3
    case ZRANGE => -4
    case ZCARD => 2
    case ZREM => -3
    case FLUSHDB => -1
    case INFO => -1
  }

  predicate Fits(c: Name, n: nat) {
    if Arity(c) > 0 then n == Arity(c) else n >= -Arity(c)
  }

  predicate IsWrite(c: Name) {
    c in {SET, DEL, EXPIRE, PEXPIRE, LPUSH, RPUSH, LPOP, RPOP, HSET, HDEL, SADD, SREM, ZADD, ZREM, FLUSHDB}
  }

  /** `CommandTable::isWriteCommand`. */
  predicate IsWriteCommand(name: Bytes) {
    NameOf(name).Some? && IsWrite(NameOf(name).value)
  }

  // ---------- lazy expiry ----------

  /** `findEntry`: the database after the lookup of `k` has dropped an expired entry. */
  function Touch(db: DB, now: int, k: Bytes): DB {
    if k in db && Overdue(db[k].expireAt, now) then db - {k} else db
  }

  function TouchAll(db: DB, now: int, ks: seq<Bytes>): DB {
    if ks == [] then db else TouchAll(Touch(db, now, ks[0]), now, ks[1..])
  }

  // ---------- handlers ----------

  const WRONGTYPE: Reply := Error("WRONGTYPE Operation against a key " + "holding the wrong kind of value")
  const NOT_AN_INTEGER: Reply := Error("ERR value is not an integer " + "or out of range")
  const REWRITE_STARTED: Reply := Simple("Background append only file " + "rewriting started")
  const OK: Reply := Simple("OK")

  function WrongNumber(name: Bytes): Reply {
    Error("ERR wrong number of arguments for '" + name + "' command")
  }

  function UnknownCommand(name: Bytes): Reply {
    Error("ERR unknown command '" + name + "'")
  }

  /** Store a new value under `k`, keeping the deadline of an existing entry. */
  function Store(db: DB, k: Bytes, v: Value): DB {
    db[k := if k in db then db[k].(value := v) else Entry(v, -1)]
  }

  function Reversed(s: seq<Bytes>): seq<Bytes> {
    if s == [] then [] else Reversed(s[1..]) + [s[0]]
  }

  function Words(ws: seq<Bytes>): set<Bytes> {
    set w | w in ws
  }

  function Bulks(ks: seq<Bytes>): seq<Reply> {
    seq(|ks|, i requires 0 <= i < |ks| => BulkString(ks[i]))
  }

  function PushList(db: DB, now: int, a: Command, front: bool): Outcome
    requires |a| >= 3
  {
    var d := Touch(db, now, a[1]);
    if a[1] in d && !d[a[1]].value.List? then Outcome(d, WRONGTYPE)
    else
      var l := if a[1] in d then d[a[1]].value.items else [];
      var l' := if front then Reversed(a[2..]) + l else l + a[2..];
      Outcome(Store(d, a[1], List(l')), Int(|l'|))
  }

  function PopList(db: DB, now: int, a: Command, front: bool): Outcome
    requires |a| >= 2
  {
    var d := Touch(db, now, a[1]);
    if a[1] !in d then Outcome(d, Null)
    else if !d[a[1]].value.List? then Outcome(d, WRONGTYPE)
    else
      var l := d[a[1]].value.items;
      if l == [] then Outcome(d, Null)
      else
        var x, l' := if front then l[0] else l[|l| - 1], if front then l[1..] else l[..|l| - 1];
        Outcome(if l' == [] then d - {a[1]} else Store(d, a[1], List(l')), BulkString(x))
  }

  /** Field-value pairs applied from left to right. */
  function PutFields(h: map<Bytes, Bytes>, a: seq<Bytes>): map<Bytes, Bytes>
    decreases |a|
  {
    if |a| < 2 then h else PutFields(h[a[0] := a[1]], a[2..])
  }

  function HSet(db: DB, now: int, a: Command): Outcome
    requires |a| >= 4
  {
    if |a| % 2 != 0 then Outcome(db, WrongNumber("hset"))
    else
      var d := Touch(db, now, a[1]);
      if a[1] in d && !d[a[1]].value.Hash? then Outcome(d, WRONGTYPE)
      else
        var h := if a[1] in d then d[a[1]].value.fields else map[];
        var h' := PutFields(h, a[2..]);
        Outcome(Store(d, a[1], Hash(h')), Int(|h'| - |h|))
  }

  function HDel(db: DB, now: int, a: Command): Outcome
    requires |a| >= 3
  {
    var d := Touch(db, now, a[1]);
    if a[1] !in d then Outcome(d, Int(0))
    else if !d[a[1]].value.Hash? then Outcome(d, WRONGTYPE)
    else
      var h := d[a[1]].value.fields;
      var h' := h - Words(a[2..]);
      Outcome(if h' == map[] then d - {a[1]} else Store(d, a[1], Hash(h')), Int(|h| - |h'|))
  }

  function SAdd(db: DB, now: int, a: Command): Outcome
    requires |a| >= 3
  {
    var d := Touch(db, now, a[1]);
    if a[1] in d && !d[a[1]].value.Set? then Outcome(d, WRONGTYPE)
    else
      var s := if a[1] in d then d[a[1]].value.members else {};
      var s' := s + Words(a[2..]);
      Outcome(Store(d, a[1], Set(s')), Int(|s'| - |s|))
  }

  function SRem(db: DB, now: int, a: Command): Outcome
    requires |a| >= 3
  {
    var d := Touch(db, now, a[1]);
    if a[1] !in d then Outcome(d, Int(0))
    else if !d[a[1]].value.Set? then Outcome(d, WRONGTYPE)
    else
      var s := d[a[1]].value.members;
      var s' := s - Words(a[2..]);
      Outcome(if s' == {} then d - {a[1]} else Store(d, a[1], Set(s')), Int(|s| - |s'|))
  }

  /** Score-member words as pairs. */
  function ScorePairs(env: Env, a: seq<Bytes>): seq<Pair> {
    if |a| < 2 then [] else [Pair(env.parseScore(a[0]), a[1])] + ScorePairs(env, a[2..])
  }

  function ZAdd(env: Env, db: DB, now: int, a: Command): Outcome
    requires |a| >= 4
  {
    if |a| % 2 != 0 then Outcome(db, WrongNumber("zadd"))
    else
      var d := Touch(db, now, a[1]);
      if a[1] in d && !d[a[1]].value.ZSet? then Outcome(d, WRONGTYPE)
      else
        var z := if a[1] in d then d[a[1]].value.scores else map[];
        var z' := ZSets.AddAll(z, ScorePairs(env, a[2..]));
        Outcome(Store(d, a[1], ZSet(z')), Int(|z'| - |z|))
  }

  function ZRem(db: DB, now: int, a: Command): Outcome
    requires |a| >= 3
  {
    var d := Touch(db, now, a[1]);
    if a[1] !in d then Outcome(d, Int(0))
    else if !d[a[1]].value.ZSet? then Outcome(d, WRONGTYPE)
    else
      var z := d[a[1]].value.scores;
      var z' := ZSets.RemAll(z, a[2..]);
      Outcome(if z' == map[] then d - {a[1]} else Store(d, a[1], ZSet(z')), Int(|z| - |z'|))
  }

  function ExpireAt(db: DB, now: int, a: Command, unit: int): Outcome
    requires |a| >= 3
  {
    var n := CreateString(a[2]);
    if !n.Integer? then Outcome(db, NOT_AN_INTEGER)
    else
      var d := Touch(db, now, a[1]);
      if a[1] !in d then Outcome(d, Int(0))
      else Outcome(d[a[1] := d[a[1]].(expireAt := now + n.i * unit, heaped := true)], Int(1))
  }

  function TimeLeft(db: DB, now: int, a: Command, unit: int): Outcome
    requires |a| >= 2 && unit > 0
  {
    var d := Touch(db, now, a[1]);
    Outcome(d,
      if a[1] !in d then Int(-2)
      else
        var ms := Remaining(d[a[1]].expireAt, now);
        if ms == -1 then Int(-1) else assert ms > 0; Int(ms / unit))
  }

  predicate Reader(c: Name) {
    c in {GET, LLEN, LRANGE, HGET, HGETALL, HLEN, SISMEMBER, SMEMBERS, SCARD, ZSCORE, ZRANK, ZRANGE, ZCARD}
  }

  /** The handlers that read one value: null or zero when absent, an error when of another type. */
  ghost function ReadOne(env: Env, c: Name, d: DB, a: Command): Reply
    requires Reader(c) && Fits(c, |a|)
  {
    if a[1] in d then ReadValue(env, c, d[a[1]].value, a) else ReadNothing(c)
  }

  function ReadNothing(c: Name): Reply {
    if c in {GET, HGET, ZSCORE, ZRANK} then Null
    else if c in {LRANGE, HGETALL, SMEMBERS, ZRANGE} then Array([])
    else Int(0)
  }

  ghost function ReadValue(env: Env, c: Name, v: Value, a: Command): Reply
    requires Reader(c) && Fits(c, |a|)
  {
    if c == GET && v.Str? then BulkString(AsString(v.o))
    else if c == LLEN && v.List? then Int(|v.items|)
    else if c == LRANGE && v.List? then Array(Bulks(Skiplists.Slice(v.items, Atoi(a[2]), Atoi(a[3]))))
    else if c == HGET && v.Hash? then if a[2] in v.fields then BulkString(v.fields[a[2]]) else Null
    else if c == HLEN && v.Hash? then Int(|v.fields|)
    else if c == HGETALL && v.Hash? then Array(FieldReplies(v.fields, env.order(env.call, v.fields.Keys)))
    else if c == SISMEMBER && v.Set? then Int(if a[2] in v.members then 1 else 0)
    else if c == SMEMBERS && v.Set? then Array(Bulks(env.order(env.call, v.members)))
    else if c == SCARD && v.Set? then Int(|v.members|)
    else if c in {ZCARD, ZSCORE, ZRANK, ZRANGE} && v.ZSet? then ReadZSet(env, c, v.scores, a)
    else WRONGTYPE
  }

  ghost function ReadZSet(env: Env, c: Name, z: ZSets.Dict, a: Command): Reply
    requires c in {ZCARD, ZSCORE, ZRANK, ZRANGE} && Fits(c, |a|)
  {
    if c == ZCARD then Int(|z|)
    else if c == ZRANGE then Array(RangeReplies(env, z, a))
    else if a[2] !in z then Null
    else if c == ZSCORE then BulkString(env.printScore(z[a[2]]))
    else Int(RankIn(z, a[2]))
  }

  function FieldReplies(h: map<Bytes, Bytes>, ks: seq<Bytes>): seq<Reply> {
    if ks == [] then []
    else [BulkString(ks[0]), if ks[0] in h then BulkString(h[ks[0]]) else Null] + FieldReplies(h, ks[1..])
  }

  /** The number of members with a smaller (score, member) pair. */
  ghost function RankIn(z: ZSets.Dict, m: Bytes): nat
    requires m in z
  {
    |set x | x in z && Below(Pair(z[x], x), Pair(z[m], m))|
  }

  /** The sorted order of a dictionary. */
  ghost function OrderOf(z: ZSets.Dict): (s: seq<Pair>)
    ensures ZSets.Coherent(s, z)
  {
    OrderExists(z);
    var s :| ZSets.Coherent(s, z);
    s
  }

  lemma {:induction false} OrderExists(z: ZSets.Dict)
    ensures exists s :: ZSets.Coherent(s, z)
    decreases |z|
  {
    if z == map[] {
      assert ZSets.Coherent([], z);
    } else {
      var m :| m in z;
      assert (z - {m}).Keys == z.Keys - {m};
      assert |z - {m}| == |(z - {m}).Keys| < |z.Keys| == |z|;
      OrderExists(z - {m});
      var s :| ZSets.Coherent(s, z - {m});
      ZSets.InsertCoherent(s, z - {m}, Pair(z[m], m));
      assert (z - {m})[m := z[m]] == z;
    }
  }

  ghost function RangeReplies(env: Env, z: ZSets.Dict, a: Command): seq<Reply>
    requires |a| >= 4
  {
    var ps := Skiplists.Slice(OrderOf(z), Atoi(a[2]), Atoi(a[3]));
    PairReplies(env, ps, |a| == 5)
  }

  function PairReplies(env: Env, ps: seq<Pair>, withScores: bool): seq<Reply> {
    if ps == [] then []
    else
      [BulkString(ps[0].member)] + (if withScores then [BulkString(env.printScore(ps[0].score))] else [])
      + PairReplies(env, ps[1..], withScores)
  }

  /** EXISTS: the number of words that name a live key. */
  function CountLive(db: DB, now: int, ks: seq<Bytes>): nat {
    if ks == [] then 0
    else (if ks[0] in Touch(db, now, ks[0]) then 1 else 0) + CountLive(Touch(db, now, ks[0]), now, ks[1..])
  }

  // ---------- SCAN ----------

  datatype ScanRequest = BadCursor | BadOption | ScanRequest(cursor: nat, count: nat, pattern: Bytes)

  /** The COUNT and MATCH options from word `i` on; a last word without a partner is ignored. */
  function ScanOptions(a: Command, i: nat, req: ScanRequest): ScanRequest
    requires req.ScanRequest?
    decreases |a| - i
  {
    if i + 1 >= |a| then req
    else if Upper(a[i]) == "COUNT" then
      var n := CreateString(a[i + 1]);
      if n.Integer? && n.i > 0 then ScanOptions(a, i + 2, req.(count := n.i)) else BadOption
    else if Upper(a[i]) == "MATCH" then ScanOptions(a, i + 2, req.(pattern := a[i + 1]))
    else BadOption
  }

  function ScanArgs(a: Command): ScanRequest
    requires |a| >= 2
  {
    var n := CreateString(a[1]);
    if n.Integer? && n.i >= 0 then ScanOptions(a, 2, ScanRequest(n.i, 10, "*")) else BadCursor
  }

  /** The keys of a raw page that are live and match. */
  function Shown(db: DB, now: int, raw: seq<Bytes>, pattern: Bytes): seq<Bytes> {
    Filtered(raw, k => k in Touch(db, now, k), pattern)
  }

  /** A page: its live and matching keys, and its expired keys dropped. */
  function ScanOutcome(env: Env, now: int, db: DB, a: Command): Outcome
    requires |a| >= 2
  {
    var req := ScanArgs(a);
    if req.BadCursor? then Outcome(db, Error("ERR invalid cursor"))
    else if req.BadOption? then Outcome(db, Error("ERR syntax error"))
    else
      var page := env.scan(env.call, db, req.cursor, req.count);
      Outcome(TouchAll(db, now, page.1),
              Array([BulkString(Digits(page.0)), Array(Bulks(Shown(db, now, page.1, req.pattern)))]))
  }

  /** One handler call with the right number of words. */
  ghost function Exec(env: Env, now: int, db: DB, c: Name, a: Command): Outcome
    requires Fits(c, |a|)
  {
    match c
    case PING => Outcome(db, if |a| <= 1 then Simple("PONG") else BulkString(a[1]))
    case SET => Outcome(db[a[1] := Entry(Str(CreateString(a[2])), -1)], OK)
    case DEL => var d := db - Words(a[1..]); Outcome(d, Int(|db| - |d|))
    case EXISTS => Outcome(TouchAll(db, now, a[1..]), Int(CountLive(db, now, a[1..])))
    case KEYS => Outcome(db, Array(Bulks(env.order(env.call, db.Keys))))
    case EXPIRE => ExpireAt(db, now, a, 1000)
    case PEXPIRE => ExpireAt(db, now, a, 1)
    case TTL => TimeLeft(db, now, a, 1000)
    case PTTL => TimeLeft(db, now, a, 1)
    case DBSIZE => Outcome(db, Int(|db|))
    case SCAN => ScanOutcome(env, now, db, a)
    case LPUSH => PushList(db, now, a, true)
    case RPUSH => PushList(db, now, a, false)
    case LPOP => PopList(db, now, a, true)
    case RPOP => PopList(db, now, a, false)
    case HSET => HSet(db, now, a)
    case HDEL => HDel(db, now, a)
    case SADD => SAdd(db, now, a)
    case SREM => SRem(db, now, a)
    case ZADD => ZAdd(env, db, now, a)
    case ZREM => ZRem(db, now, a)
    case ZRANGE =>
      if |a| == 5 && Upper(a[4]) != "WITHSCORES" then Outcome(db, Error("ERR syntax error"))
      else var d := Touch(db, now, a[1]); Outcome(d, ReadOne(env, c, d, a))
    case FLUSHDB => Outcome(map[], OK)
    case INFO => Outcome(db, BulkString(env.info(env.call, a)))
    case _ => var d := Touch(db, now, a[1]); Outcome(d, ReadOne(env, c, d, a))
  }

  /** `CommandTable::dispatch`. */
  ghost function Dispatch(env: Env, now: int, db: DB, a: Command): Outcome
    requires a != []
  {
    var c := NameOf(a[0]);
    if c.None? then Outcome(db, UnknownCommand(a[0]))
    else if !Fits(c.value, |a|) then
      Outcome(db, WrongNumber(Upper(a[0])))
    else Exec(env, now, db, c.value, a)
  }
}
