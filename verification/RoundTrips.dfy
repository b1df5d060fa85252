/** What one command writes another reads back or undoes. */
module RoundTrips {
  import opened Text
  import opened Resp
  import opened SortedPairs
  import opened Objects
  import opened Replies
  import opened Expiry
  import opened Commands
  import CommandProofs

  // ---------- SET and GET ----------

  /** The decimal texts that printing an integer can produce. */
  predicate Canonical(s: Bytes) {
    s == "0" || NonZero(s) || (s != [] && s[0] == '-' && NonZero(s[1..]))
  }

  predicate NonZero(s: Bytes) {
    s != [] && s[0] != '0' && forall i :: 0 <= i < |s| ==> IsDigit(s[i])
  }

  lemma {:induction false} DigitsNonZero(n: nat)
    requires n > 0
    ensures NonZero(Digits(n))
  {
    if n >= 10 {
      DigitsNonZero(n / 10);
      assert Digits(n)[0] == Digits(n / 10)[0];
    }
  }

  lemma {:induction false} DigitsOfValue(s: Bytes)
    requires NonZero(s)
    ensures DigitsValue(s) > 0 && Digits(DigitsValue(s)) == s
  {
    hide Digits;
    var n := |s| - 1;
    assert IsDigit(s[n]);
    var c := s[n] as int - '0' as int;
    assert s == s[..n] + [s[n]];
    DigitIs(c);
    if n == 0 {
      assert s[..n] == [];
      assert DigitsValue(s) == c;
      DigitsAre(0, c);
    } else {
      assert NonZero(s[..n]);
      DigitsOfValue(s[..n]);
      DigitsAre(DigitsValue(s[..n]), c);
    }
  }

  lemma PrintedIsCanonical(i: int)
    ensures Canonical(IntText(i))
  {
    hide Digits;
    if i == 0 {
      assert Digits(0) == "0" by { DigitsZero(); }
    } else if i > 0 {
      DigitsNonZero(i);
    } else {
      DigitsNonZero(-i);
      assert IntText(i)[1..] == Digits(-i);
    }
  }

  lemma DigitsZero()
    ensures Digits(0) == "0"
  {
  }

  lemma CanonicalScans(s: Bytes)
    requires Canonical(s)
    ensures IntText(ScanInt(s).value) == s
  {
    if s == "0" {
      ScanIntRoundTrip(0);
      assert IntText(0) == "0";
    } else if NonZero(s) {
      DigitsOfValue(s);
      ScanIntRoundTrip(DigitsValue(s));
    } else {
      DigitsOfValue(s[1..]);
      var v: int := DigitsValue(s[1..]);
      assert IntText(-v) == s;
      ScanIntRoundTrip(-v);
    }
  }

  /** GET gives back the bytes of SET if and only if they are not an integer text, or are one in the
      form in which integers are printed: "007", "+7", " 7" and "-0" come back changed. */
  lemma SetGetIff(env: Env, db: DB, now: int, k: Bytes, v: Bytes)
    ensures var d := Exec(env, now, db, SET, ["SET", k, v]).db;
            Exec(env, now, d, GET, ["GET", k]) == Outcome(d, BulkString(v)) <==> CreateString(v).Raw? || Canonical(v)
  {
    hide ScanInt, IntText, Canonical;
    var d := db[k := Entry(Str(CreateString(v)), -1)];
    GetSays(env, d, now, k, CreateString(v));
    if CreateString(v).Integer? {
      PrintedIsCanonical(CreateString(v).i);
      if Canonical(v) { CanonicalScans(v); }
    }
  }

  lemma GetSays(env: Env, d: DB, now: int, k: Bytes, o: StringObject)
    requires k in d && d[k] == Entry(Str(o), -1)
    ensures Exec(env, now, d, GET, ["GET", k]) == Outcome(d, BulkString(AsString(o)))
  {
    hide AsString;
  }

  lemma SetGetChanges(env: Env)
    ensures Exec(env, 0, Exec(env, 0, map[], SET, ["SET", "k", "007"]).db, GET, ["GET", "k"]).reply == BulkString("7")
  {
    hide Exec, ScanInt;
    assert ScanInt("007") == Scanned(7, 3) by { ScanSeven(); }
    assert CreateString("007") == Integer(7);
    SetSays(env, map[], "k", "007");
    GetSays(env, map["k" := Entry(Str(Integer(7)), -1)], 0, "k", Integer(7));
    assert IntText(7) == "7";
  }

  lemma SetSays(env: Env, d: DB, k: Bytes, v: Bytes)
    ensures Exec(env, 0, d, SET, ["SET", k, v]).db == d[k := Entry(Str(CreateString(v)), -1)]
  {
    hide CreateString;
  }

  lemma ScanSeven()
    ensures ScanInt("007") == Scanned(7, 3)
  {
    var s: Bytes := "007";
    DigitRunAll(s);
    assert s[0..] == s && s[..3] == s;
    assert s[..2] == "00" && s[..2][..1] == "0" && s[..2][..1][..0] == [];
    assert DigitsValue("0") == 0;
    assert DigitsValue("00") == 0;
    assert DigitsValue(s) == 7;
  }

  // ---------- lists as stacks and queues ----------

  datatype Popped = Popped(db: DB, replies: seq<Reply>)

  function Pops(db: DB, now: int, k: Bytes, n: nat, front: bool): Popped {
    if n == 0 then Popped(db, [])
    else
      var o := PopList(db, now, [if front then "LPOP" else "RPOP", k], front);
      var rest := Pops(o.db, now, k, n - 1, front);
      Popped(rest.db, [o.reply] + rest.replies)
  }

  ghost predicate HoldsList(db: DB, now: int, k: Bytes, l: seq<Bytes>) {
    k in db && db[k].value == List(l) && !Overdue(db[k].expireAt, now)
  }

  /** Popping a whole list gives its elements in order, from either end, and removes the key. */
  lemma {:induction false} PopsAll(db: DB, now: int, k: Bytes, l: seq<Bytes>, front: bool)
    requires l != [] && HoldsList(db, now, k, l)
    ensures Pops(db, now, k, |l|, front) == Popped(db - {k}, Bulks(if front then l else Reversed(l)))
    decreases |l|
  {
    var o := PopList(db, now, [if front then "LPOP" else "RPOP", k], front);
    var x, l' := if front then l[0] else l[|l| - 1], if front then l[1..] else l[..|l| - 1];
    assert o.reply == BulkString(x);
    ReversedSplits(l);
    if l' == [] {
      assert o.db == db - {k} && |l| == 1;
      assert Pops(o.db, now, k, 0, front) == Popped(o.db, []);
    } else {
      assert HoldsList(o.db, now, k, l');
      PopsAll(o.db, now, k, l', front);
      assert o.db - {k} == db - {k};
    }
    BulksCons(x, if front then l' else Reversed(l'));
    assert [l[0]] + l[1..] == l;
  }

  lemma BulksCons(x: Bytes, l: seq<Bytes>)
    ensures Bulks([x] + l) == [BulkString(x)] + Bulks(l)
  {
  }

  lemma ReversedSplits(l: seq<Bytes>)
    requires l != []
    ensures Reversed(l) == [l[|l| - 1]] + Reversed(l[..|l| - 1])
  {
    hide Reversed;
    var init, last := l[..|l| - 1], l[|l| - 1];
    assert init + [last] == l;
    CommandProofs.ReversedSnoc(init, last);
  }

  lemma {:induction false} ReversedTwice(l: seq<Bytes>)
    ensures Reversed(Reversed(l)) == l && (l != [] ==> Reversed(l) != [])
  {
    if l != [] {
      ReversedTwice(l[1..]);
      ReversedSplits(Reversed(l));
      assert Reversed(l)[..|Reversed(l)| - 1] == Reversed(l[1..]);
    }
  }

  /** Pushing and popping at the same end is last in first out, at opposite ends first in first out;
      once everything is popped the database is as before. */
  lemma PushThenPop(db: DB, now: int, k: Bytes, xs: seq<Bytes>, pushFront: bool, popFront: bool)
    requires xs != [] && k !in Touch(db, now, k)
    ensures var o := PushList(db, now, [if pushFront then "LPUSH" else "RPUSH", k] + xs, pushFront);
            && o.reply == Int(|xs|)
            && Pops(o.db, now, k, |xs|, popFront) ==
               Popped(Touch(db, now, k), Bulks(if pushFront == popFront then Reversed(xs) else xs))
  {
    hide Bulks, Reversed, Pops;
    var a := [if pushFront then "LPUSH" else "RPUSH", k] + xs;
    assert a[1] == k && a[2..] == xs;
    var d := Touch(db, now, k);
    var l := if pushFront then Reversed(xs) else xs;
    CommandProofs.ReversedLength(xs);
    ReversedTwice(xs);
    var o := PushList(db, now, a, pushFront);
    assert Reversed(xs) + [] == Reversed(xs) && [] + xs == xs;
    assert o.db == d[k := Entry(List(l), -1)];
    PopsAll(o.db, now, k, l, popFront);
    assert o.db - {k} == d;
  }

  // ---------- hashes and sets ----------

  /** The value of field `f` after the pairs: of the last pair that names it, else the old one. */
  function LastOf(before: Option<Bytes>, a: seq<Bytes>, f: Bytes): Option<Bytes>
    decreases |a|
  {
    if |a| < 2 then before else LastOf(if a[0] == f then Some(a[1]) else before, a[2..], f)
  }

  function At(h: map<Bytes, Bytes>, f: Bytes): Option<Bytes> {
    if f in h then Some(h[f]) else None
  }

  lemma {:induction false} PutFieldsAt(h: map<Bytes, Bytes>, a: seq<Bytes>, f: Bytes)
    ensures At(PutFields(h, a), f) == LastOf(At(h, f), a, f)
    decreases |a|
  {
    if |a| >= 2 {
      PutFieldsAt(h[a[0] := a[1]], a[2..], f);
    }
  }

  /** SREM of the members just added restores the set if and only if none of them was there before. */
  lemma SAddUndoneIff(db: DB, now: int, k: Bytes, ms: seq<Bytes>)
    requires ms != []
    requires var d := Touch(db, now, k); k in d ==> d[k].value.Set? && d[k].value.members != {}
    ensures var d := Touch(db, now, k);
            var s := if k in d then d[k].value.members else {};
            var o := SAdd(db, now, ["SADD", k] + ms);
            SRem(o.db, now, ["SREM", k] + ms).db == d <==> s !! Words(ms)
  {
  }

  // ---------- deadlines ----------

  /** After EXPIRE or PEXPIRE the remaining time counts down to the deadline, at which the key is gone;
      a deadline before the epoch means no deadline at all to the lookup. */
  lemma ExpireThenTimeLeft(db: DB, now: int, later: int, k: Bytes, n: int, unit: int)
    requires k in Touch(db, now, k) && now <= later && unit > 0 && INT64_MIN <= n <= INT64_MAX
    ensures var o := ExpireAt(db, now, ["EXPIRE", k, IntText(n)], unit);
            var at := now + n * unit;
            && o.reply == Int(1)
            && TimeLeft(o.db, later, ["TTL", k], unit).reply ==
               Int(if at < 0 then -1 else if later >= at then -2 else assert at - later > 0; (at - later) / unit)
            && (k in Touch(o.db, later, k) <==> at < 0 || later < at)
  {
    hide ScanInt, IntText;
    ScanIntRoundTrip(n);
    assert CreateString(IntText(n)) == Integer(n);
  }
}
