/** Byte strings, decimal texts and the C library's integer scanner.

    A byte string is a sequence of characters.  No definition below depends on the range
    of a character, so every statement holds in particular for characters below 256.
 */
module Text {

  type Bytes = string

  const CRLF: Bytes := "\r\n"

  datatype Option<+T> = None | Some(value: T)

  // ---------- characters ----------

  predicate IsDigit(c: char) { '0' <= c <= '9' }

  /** `isspace` in the C locale: space, \t, \n, \v, \f, \r. */
  predicate IsSpace(c: char) { c == ' ' || (9 as char <= c <= 13 as char) }

  function Upper(s: Bytes): (r: Bytes)
    ensures |r| == |s|
  {
    seq(|s|, i requires 0 <= i < |s| => if 'a' <= s[i] <= 'z' then (s[i] as int - 32) as char else s[i])
  }

  // ---------- printing (`std::to_string`) ----------

  function DigitOf(d: nat): (c: char)
    requires d < 10
  {
    (d + '0' as int) as char
  }

  function Digits(n: nat): (r: Bytes)
    ensures |r| > 0 && forall i :: 0 <= i < |r| ==> IsDigit(r[i])
  {
    if n < 10 then [DigitOf(n)] else Digits(n / 10) + [DigitOf(n % 10)]
  }

  function IntText(i: int): (r: Bytes)
    ensures |r| > 0
  {
    if i < 0 then "-" + Digits(-i) else Digits(i)
  }

  // ---------- scanning (`strtol` / `strtoll`, base 10) ----------

  function SpaceRun(s: Bytes): (n: nat)
    ensures n <= |s|
  {
    if s != [] && IsSpace(s[0]) then 1 + SpaceRun(s[1..]) else 0
  }

  function DigitRun(s: Bytes): (n: nat)
    ensures n <= |s|
    ensures forall i :: 0 <= i < n ==> IsDigit(s[i])
    ensures n < |s| ==> !IsDigit(s[n])
  {
    if s != [] && IsDigit(s[0]) then 1 + DigitRun(s[1..]) else 0
  }

  function DigitsValue(s: Bytes): (v: nat)
    requires forall i :: 0 <= i < |s| ==> IsDigit(s[i])
  {
    if s == [] then 0
    else assert IsDigit(s[|s| - 1]); 10 * DigitsValue(s[..|s| - 1]) + (s[|s| - 1] as int - '0' as int)
  }

  /** The value scanned and the number of characters consumed (0 when no digit is found). */
  datatype Scanned = Scanned(value: int, end: nat)

  function ScanInt(s: Bytes): (r: Scanned)
    ensures r.end <= |s|
  {
    var ws := SpaceRun(s);
    var sign := if ws < |s| && (s[ws] == '-' || s[ws] == '+') then 1 else 0;
    var body := s[ws + sign..];
    var n := DigitRun(body);
    var v: int := DigitsValue(body[..n]);
    if n == 0 then Scanned(0, 0)
    else Scanned(if sign == 1 && s[ws] == '-' then -v else v, ws + sign + n)
  }

  function Atoi(s: Bytes): int { ScanInt(s).value }

  /** Decimal digits: a number below ten is its digit, and another digit multiplies by ten. */
  lemma DigitsAre(n: nat, c: nat)
    requires c < 10
    ensures Digits(c) == ["0123456789"[c]]
    ensures n > 0 ==> Digits(10 * n + c) == Digits(n) + ["0123456789"[c]]
  {
    assert (10 * n + c) / 10 == n && (10 * n + c) % 10 == c;
    DigitIs(c);
  }

  lemma DigitIs(c: nat)
    requires c < 10
    ensures DigitOf(c) == "0123456789"[c]
  {
  }

  lemma {:induction false} DigitsValueRoundTrip(n: nat)
    ensures DigitsValue(Digits(n)) == n
  {
    if n >= 10 {
      DigitsValueRoundTrip(n / 10);
      assert Digits(n)[..|Digits(n)| - 1] == Digits(n / 10);
    }
  }

  lemma {:induction false} DigitRunAll(s: Bytes)
    requires forall i :: 0 <= i < |s| ==> IsDigit(s[i])
    ensures DigitRun(s) == |s|
  {
    if s != [] { DigitRunAll(s[1..]); }
  }

  /** A text of digits, with or without a minus sign, is scanned to its end. */
  lemma ScanDigits(d: Bytes)
    requires d != [] && forall i :: 0 <= i < |d| ==> IsDigit(d[i])
    ensures ScanInt(d) == Scanned(DigitsValue(d), |d|)
    ensures ScanInt("-" + d) == Scanned(-(DigitsValue(d) as int), |d| + 1)
  {
    hide DigitsValue, DigitRun, SpaceRun;
    DigitRunAll(d);
    assert IsDigit(d[0]);
    NoSpace(d);
    assert d[0..] == d && d[..|d|] == d;
    var m := "-" + d;
    assert m[0] == '-' && m[1..] == d;
    NoSpace(m);
  }

  lemma NoSpace(s: Bytes)
    requires s != [] && !IsSpace(s[0])
    ensures SpaceRun(s) == 0
  {
  }

  /** Printing and scanning are inverse on every integer, and the scan consumes the whole text. */
  lemma ScanIntRoundTrip(i: int)
    ensures ScanInt(IntText(i)) == Scanned(i, |IntText(i)|)
  {
    hide ScanInt, DigitsValue, Digits;
    var n: nat := if i < 0 then -i else i;
    DigitsValueRoundTrip(n);
    ScanDigits(Digits(n));
  }

  lemma {:induction false} SpaceRunIs(w: Bytes, rest: Bytes)
    requires forall i :: 0 <= i < |w| ==> IsSpace(w[i])
    requires rest != [] ==> !IsSpace(rest[0])
    ensures SpaceRun(w + rest) == |w|
  {
    if w == [] {
      assert w + rest == rest;
    } else {
      assert (w + rest)[1..] == w[1..] + rest;
      SpaceRunIs(w[1..], rest);
    }
  }

  lemma {:induction false} DigitRunIs(d: Bytes, rest: Bytes)
    requires forall i :: 0 <= i < |d| ==> IsDigit(d[i])
    requires rest != [] ==> !IsDigit(rest[0])
    ensures DigitRun(d + rest) == |d|
  {
    if d == [] {
      assert d + rest == rest;
    } else {
      assert (d + rest)[1..] == d[1..] + rest;
      DigitRunIs(d[1..], rest);
    }
  }

  /** The C scanner, written out: white space, at most one sign, digits; nothing is scanned where no digit follows. */
  lemma ScanIntIs(w: Bytes, sign: Bytes, d: Bytes, rest: Bytes)
    requires forall i :: 0 <= i < |w| ==> w[i] == ' ' || 9 <= w[i] as int <= 13
    requires sign in {"", "+", "-"}
    requires forall i :: 0 <= i < |d| ==> '0' <= d[i] <= '9'
    requires rest != [] ==> !('0' <= rest[0] <= '9')
    requires d == [] && sign == [] && rest != [] ==> rest[0] != '+' && rest[0] != '-' && rest[0] != ' ' && !(9 <= rest[0] as int <= 13)
    ensures ScanInt(w + sign + d + rest) ==
            if d == [] then Scanned(0, 0)
            else Scanned(if sign == "-" then -(DigitsValue(d) as int) else DigitsValue(d), |w| + |sign| + |d|)
  {
    hide ScanInt, SpaceRun, DigitRun, DigitsValue;
    Regroup(w, sign, d, rest);
    DigitRunIs(d, rest);
    ScanParts(w + sign + d + rest, w, sign, d + rest, |d|);
  }

  lemma Regroup(w: Bytes, sign: Bytes, d: Bytes, rest: Bytes)
    ensures w + sign + d + rest == w + sign + (d + rest)
    ensures (d + rest)[..|d|] == d
    ensures d + rest != [] ==> (d + rest)[0] == if d != [] then d[0] else rest[0]
  {
  }

  lemma ScanParts(s: Bytes, w: Bytes, sign: Bytes, body: Bytes, n: nat)
    requires forall i :: 0 <= i < |w| ==> IsSpace(w[i])
    requires sign in {"", "+", "-"}
    requires sign == [] && body != [] ==> !IsSpace(body[0]) && body[0] != '+' && body[0] != '-'
    requires s == w + sign + body && n == DigitRun(body)
    ensures ScanInt(s) ==
            if n == 0 then Scanned(0, 0)
            else var v: int := DigitsValue(body[..n]); Scanned(if sign == "-" then -v else v, |w| + |sign| + n)
  {
    hide ScanInt, SpaceRun, DigitRun, DigitsValue, IsSpace, IsDigit;
    SignAt(w, sign, body);
    ScanFrom(s, |w|, |sign|, n);
  }

  lemma SignAt(w: Bytes, sign: Bytes, body: Bytes)
    requires forall i :: 0 <= i < |w| ==> IsSpace(w[i])
    requires sign in {"", "+", "-"}
    requires sign == [] && body != [] ==> !IsSpace(body[0]) && body[0] != '+' && body[0] != '-'
    ensures var s := w + sign + body;
            && SpaceRun(s) == |w| && s[|w| + |sign|..] == body
            && |sign| == (if |w| < |s| && (s[|w|] == '-' || s[|w|] == '+') then 1 else 0)
            && (sign == "-" <==> |sign| == 1 && s[|w|] == '-')
  {
    hide SpaceRun;
    var s := w + sign + body;
    assert s == w + (sign + body);
    assert sign != [] ==> (sign + body)[0] == sign[0] && !IsSpace(sign[0]);
    assert sign == [] ==> sign + body == body;
    SpaceRunIs(w, sign + body);
  }

  lemma ScanFrom(s: Bytes, ws: nat, k: nat, n: nat)
    requires ws + k <= |s| && SpaceRun(s) == ws && k == (if ws < |s| && (s[ws] == '-' || s[ws] == '+') then 1 else 0)
    requires n == DigitRun(s[ws + k..])
    ensures ScanInt(s) ==
            if n == 0 then Scanned(0, 0)
            else var v: int := DigitsValue(s[ws + k..][..n]);
                 Scanned(if k == 1 && s[ws] == '-' then -v else v, ws + k + n)
  {
    hide SpaceRun, DigitRun, DigitsValue;
  }

  // ---------- lexicographic order (`std::string::operator<`) ----------

  predicate Less(a: Bytes, b: Bytes)
  {
    b != [] && (a == [] || a[0] < b[0] || (a[0] == b[0] && Less(a[1..], b[1..])))
  }

  lemma {:induction false} LessTrichotomy(a: Bytes, b: Bytes)
    ensures a == b ==> !Less(a, b)
    ensures a != b ==> Less(a, b) != Less(b, a)
  {
    if a != [] && b != [] {
      LessTrichotomy(a[1..], b[1..]);
      assert a == [a[0]] + a[1..] && b == [b[0]] + b[1..];
    }
  }

  lemma {:induction false} LessTransitive(a: Bytes, b: Bytes, c: Bytes)
    requires Less(a, b) && Less(b, c)
    ensures Less(a, c)
  {
    if a != [] && a[0] == b[0] && b[0] == c[0] {
      LessTransitive(a[1..], b[1..], c[1..]);
    }
  }

  /** Byte order, written out: `a` is a proper prefix of `b`, or smaller at the first place where they differ. */
  ghost predicate ByteBefore(a: Bytes, b: Bytes) {
    exists n: nat :: DiffersAt(a, b, n)
  }

  predicate DiffersAt(a: Bytes, b: Bytes, n: nat) {
    && n <= |a| && n < |b| && a[..n] == b[..n]
    && (n == |a| || a[n] < b[n])
  }

  lemma {:induction false} LessIsByteOrder(a: Bytes, b: Bytes)
    ensures Less(a, b) <==> ByteBefore(a, b)
    decreases |a|
  {
    if b == [] {
    } else if a == [] {
      assert DiffersAt(a, b, 0);
    } else if a[0] != b[0] {
      FirstDiffers(a, b);
    } else {
      LessIsByteOrder(a[1..], b[1..]);
      if Less(a, b) {
        var n: nat :| DiffersAt(a[1..], b[1..], n);
        DiffersShift(a, b, n);
      }
      if ByteBefore(a, b) {
        var n: nat :| DiffersAt(a, b, n);
        assert n > 0;
        DiffersShift(a, b, n - 1);
      }
    }
  }

  lemma FirstDiffers(a: Bytes, b: Bytes)
    requires a != [] && b != [] && a[0] != b[0]
    ensures ByteBefore(a, b) <==> a[0] < b[0]
  {
    if a[0] < b[0] { assert DiffersAt(a, b, 0); }
    if ByteBefore(a, b) {
      var n: nat :| DiffersAt(a, b, n);
      assert n > 0 ==> a[..n][0] == b[..n][0];
    }
  }

  lemma DiffersShift(a: Bytes, b: Bytes, n: nat)
    requires a != [] && b != [] && a[0] == b[0]
    ensures DiffersAt(a[1..], b[1..], n) <==> DiffersAt(a, b, n + 1)
  {
    if n + 1 <= |a| && n + 1 <= |b| {
      assert a[..n + 1] == [a[0]] + a[1..][..n] && b[..n + 1] == [b[0]] + b[1..][..n];
      if a[..n + 1] == b[..n + 1] {
        assert a[..n + 1][1..] == b[..n + 1][1..];
      }
    }
  }
}
