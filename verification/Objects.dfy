/** Stored values and the integer encoding of strings. */
module Objects {
  import opened Text
  import opened SortedPairs

  const INT64_MIN: int := -0x8000_0000_0000_0000
  const INT64_MAX: int := 0x7FFF_FFFF_FFFF_FFFF

  datatype StringObject = Integer(i: int) | Raw(s: Bytes)

  /** `RedisObject::createString`: texts that `strtoll` consumes entirely are stored as integers. */
  function CreateString(s: Bytes): StringObject {
    var r := ScanInt(s);
    if s != [] && r.end == |s| && INT64_MIN <= r.value <= INT64_MAX then Integer(r.value) else Raw(s)
  }

  function AsString(o: StringObject): Bytes {
    match o
    case Integer(i) => IntText(i)
    case Raw(s) => s
  }

  datatype Value =
    | Str(o: StringObject)
    | List(items: seq<Bytes>)
    | Hash(fields: map<Bytes, Bytes>)
    | Set(members: set<Bytes>)
    | ZSet(scores: map<Bytes, Score>)

  /** What the handlers store: strings as `createString` builds them, containers never empty. */
  ghost predicate Storable(v: Value) {
    match v
    case Str(o) => exists s :: o == CreateString(s)
    case List(items) => items != []
    case Hash(fields) => fields != map[]
    case Set(members) => members != {}
    case ZSet(scores) => scores != map[]
  }

  /** Printing a stored string and storing it again reproduces the object: integer normalisation is
      idempotent. */
  lemma CreateAsString(s: Bytes)
    ensures CreateString(AsString(CreateString(s))) == CreateString(s)
  {
    hide ScanInt, IntText;
    var o := CreateString(s);
    if o.Integer? {
      ScanIntRoundTrip(o.i);
    }
  }

  /** `s` is white space, at most one sign and at least one digit. */
  predicate IntegerText(s: Bytes, w: Bytes, sign: Bytes, d: Bytes) {
    && s == w + sign + d && d != []
    && (forall i :: 0 <= i < |w| ==> w[i] == ' ' || 9 <= w[i] as int <= 13)
    && sign in {"", "+", "-"}
    && (forall i :: 0 <= i < |d| ==> '0' <= d[i] <= '9')
  }

  function ValueOf(sign: Bytes, d: Bytes): int
    requires forall i :: 0 <= i < |d| ==> '0' <= d[i] <= '9'
  {
    if sign == "-" then -(DigitsValue(d) as int) else DigitsValue(d)
  }

  /** An integer text in the range of 64 bits is stored as its value. */
  lemma IntegerStored(s: Bytes, w: Bytes, sign: Bytes, d: Bytes)
    requires IntegerText(s, w, sign, d)
    ensures CreateString(s) ==
            if -0x8000_0000_0000_0000 <= ValueOf(sign, d) <= 0x7FFF_FFFF_FFFF_FFFF then Integer(ValueOf(sign, d)) else Raw(s)
  {
    hide ScanInt, DigitsValue;
    ScanIntIs(w, sign, d, []);
    assert s + [] == s;
  }

  /** Every other text is stored as it is. */
  lemma OtherStored(s: Bytes)
    requires forall w, sign, d :: !IntegerText(s, w, sign, d)
    ensures CreateString(s) == Raw(s)
  {
    if CreateString(s).Integer? {
      IntegerParts(s);
    }
  }

  lemma IntegerParts(s: Bytes)
    requires CreateString(s).Integer?
    ensures exists w, sign, d :: IntegerText(s, w, sign, d)
  {
    hide ScanInt, DigitsValue, DigitRun, SpaceRun;
    var n := SpaceRun(s);
    SpacePrefix(s);
    var k := if n < |s| && (s[n] == '-' || s[n] == '+') then 1 else 0;
    var body := s[n + k..];
    var w, sign, d := s[..n], s[n..n + k], body[..DigitRun(body)];
    ScanFrom(s, n, k, DigitRun(body));
    assert |d| == |body| && body == d;
    assert s == s[..n] + s[n..n + k] + s[n + k..];
    assert k == 1 ==> sign == [s[n]];
    assert forall i :: 0 <= i < |d| ==> IsDigit(d[i]);
    assert IntegerText(s, w, sign, d);
  }

  lemma {:induction false} SpacePrefix(s: Bytes)
    ensures forall i :: 0 <= i < SpaceRun(s) ==> IsSpace(s[i])
  {
    if s != [] && IsSpace(s[0]) {
      SpacePrefix(s[1..]);
      assert forall i :: 0 < i < SpaceRun(s) ==> s[i] == s[1..][i - 1];
    }
  }
}
