/** JavaScript number handling used by the application, on exact integers: `Math.round` of a
    quotient, `parseInt`, `x || fallback` and rendering an integer in a template string. */
module Numeric {
  import opened Wrappers

  /** `Math.round(p / q)` for a positive divisor: the nearest integer, with halves rounded up
      (towards +infinity, as JavaScript does for negative values too). */
  function RoundRatio(p: int, q: int): (r: int)
    requires q > 0
    ensures 2 * q * r <= 2 * p + q < 2 * q * (r + 1)
  {
    (2 * p + q) / (2 * q)
  }

  /** `Math.round((c / t) * 100)`: a count of `t` as a rounded percentage. */
  function Percent(c: int, t: int): (r: int)
    requires t > 0
    ensures 0 <= c <= t ==> 0 <= r <= 100
    ensures c == 0 ==> r == 0
    ensures c == t ==> r == 100
    ensures 2 * t * r <= 200 * c + t < 2 * t * (r + 1)
  {
    var r := RoundRatio(100 * c, t);
    PercentRange(c, t, r);
    r
  }

  lemma PercentRange(c: int, t: int, r: int)
    requires t > 0
    requires 2 * t * r <= 200 * c + t < 2 * t * (r + 1)
    ensures 0 <= c <= t ==> 0 <= r <= 100
    ensures c == 0 ==> r == 0
    ensures c == t ==> r == 100
  {
    if 0 <= c <= t {
      if r < 0 {
        MulAtMost(2 * t, r + 1, 0);
      }
      if r > 100 {
        MulAtMost(2 * t, 101, r);
      }
      if c == 0 && r > 0 {
        MulAtMost(2 * t, 1, r);
      }
      if c == t && r < 100 {
        MulAtMost(2 * t, r + 1, 100);
      }
    }
  }

  /** An exact multiple rounds to its quotient. */
  lemma RoundOfMultiple(p: int, q: int, k: int)
    requires q > 0 && p == k * q
    ensures RoundRatio(p, q) == k
  {
    var r := RoundRatio(p, q);
    if r > k {
      MulAtMost(2 * q, k + 1, r);
    }
    if r < k {
      MulAtMost(2 * q, r + 1, k);
    }
  }

  lemma MulSucc(a: int, n: int)
    ensures a * (n + 1) == a * n + a
  {
  }

  lemma MulAtMost(a: int, b: int, c: int)
    requires a >= 0 && b <= c
    ensures a * b <= a * c
  {
  }

  /** `a % b` in JavaScript for b > 0: the remainder truncated towards zero, with the sign of `a`. */
  function TruncRem(a: int, b: int): (r: int)
    requires b > 0
    ensures a >= 0 ==> 0 <= r < b && r == a % b
    ensures a < 0 ==> -b < r <= 0
    ensures r == a - b * (if a >= 0 then a / b else -((-a) / b))
  {
    if a >= 0 then a % b else -((-a) % b)
  }

  predicate IsDigit(c: char) {
    '0' <= c <= '9'
  }

  /** The whitespace `parseInt` skips before the number (the ASCII part of it). */
  predicate IsSpace(c: char) {
    c == ' ' || c == '\t' || c == '\n' || c == '\r'
  }

  /** Length of the run of decimal digits at the start of `s`. */
  function DigitRun(s: string): (n: nat)
    ensures n <= |s|
    ensures forall i :: 0 <= i < n ==> IsDigit(s[i])
    ensures n < |s| ==> !IsDigit(s[n])
    ensures (forall i :: 0 <= i < |s| ==> IsDigit(s[i])) ==> n == |s|
  {
    if s != [] && IsDigit(s[0]) then 1 + DigitRun(s[1..]) else 0
  }

  /** The value of a string of decimal digits, most significant first. */
  function DigitsValue(s: string): nat
    requires forall i :: 0 <= i < |s| ==> IsDigit(s[i])
  {
    if s == [] then 0
    else
      assert IsDigit(s[|s| - 1]);
      10 * DigitsValue(s[..|s| - 1]) + (s[|s| - 1] as int - '0' as int)
  }

  /** Length of the run of whitespace at the start of `s`. */
  function SpaceRun(s: string): (n: nat)
    ensures n <= |s|
  {
    if s != [] && IsSpace(s[0]) then 1 + SpaceRun(s[1..]) else 0
  }

  predicate IsHexDigit(c: char) {
    IsDigit(c) || 'a' <= c <= 'f' || 'A' <= c <= 'F'
  }

  function HexDigitValue(c: char): (v: nat)
    requires IsHexDigit(c)
    ensures v < 16
  {
    if IsDigit(c) then c as int - '0' as int
    else if 'a' <= c <= 'f' then c as int - 'a' as int + 10
    else c as int - 'A' as int + 10
  }

  /** Length of the run of hexadecimal digits at the start of `s`. */
  function HexRun(s: string): (n: nat)
    ensures n <= |s|
    ensures forall i :: 0 <= i < n ==> IsHexDigit(s[i])
    ensures (forall i :: 0 <= i < |s| ==> IsHexDigit(s[i])) ==> n == |s|
  {
    if s != [] && IsHexDigit(s[0]) then 1 + HexRun(s[1..]) else 0
  }

  /** The value of a string of hexadecimal digits, most significant first. */
  function HexValue(s: string): nat
    requires forall i :: 0 <= i < |s| ==> IsHexDigit(s[i])
  {
    if s == [] then 0
    else
      assert IsHexDigit(s[|s| - 1]);
      16 * HexValue(s[..|s| - 1]) + HexDigitValue(s[|s| - 1])
  }

  /** `0x` or `0X`, which makes `parseInt` without a radix read hexadecimal. */
  predicate HasHexPrefix(u: string) {
    |u| >= 2 && u[0] == '0' && (u[1] == 'x' || u[1] == 'X')
  }

  /** The number after the sign: the longest run of hexadecimal digits after a `0x` prefix,
      otherwise the longest run of decimal digits; `None` when that run is empty. */
  function UnsignedValue(u: string): (r: Option<nat>)
    ensures r.Some? ==> u != [] && IsDigit(u[0])
    ensures u != [] && (forall i :: 0 <= i < |u| ==> IsDigit(u[i])) ==> r == Some(DigitsValue(u))
  {
    if HasHexPrefix(u) then
      var w := u[2..];
      var n := HexRun(w);
      if n == 0 then None else Some(HexValue(w[..n]))
    else
      var n := DigitRun(u);
      if n == 0 then None
      else
        assert u[..|u|] == u;
        Some(DigitsValue(u[..n]))
  }

  /** `parseInt(s)` without a radix: skip leading whitespace, read an optional sign, then
      the number after it (`UnsignedValue`); `None` is `NaN`. */
  function ParseInt(s: string): (r: Option<int>)
    ensures r.Some? ==> exists k :: 0 <= k < |s| && IsDigit(s[k])
    ensures s != [] && (forall i :: 0 <= i < |s| ==> IsDigit(s[i])) ==> r == Some(DigitsValue(s))
  {
    var t := s[SpaceRun(s)..];
    var neg := t != [] && t[0] == '-';
    var u := if t != [] && (t[0] == '-' || t[0] == '+') then t[1..] else t;
    match UnsignedValue(u)
    case None => None
    case Some(v) =>
      assert IsDigit(u[0]) && u[0] == s[|s| - |u|];
      var x: int := if neg then -(v as int) else v;
      Some(x)
  }

  /** A `0x` prefix followed by hexadecimal digits reads as their hexadecimal value. */
  lemma ParseHex(w: string)
    requires w != [] && forall i :: 0 <= i < |w| ==> IsHexDigit(w[i])
    ensures ParseInt("0x" + w) == Some(HexValue(w))
  {
    var s := "0x" + w;
    assert SpaceRun(s) == 0 && s[0..] == s;
    assert s[2..] == w && w[..|w|] == w;
  }

  /** "0x10" reads as 16, not as 0. */
  lemma HexSixteen()
    ensures ParseInt("0x10") == Some(16)
  {
    assert "0x10" == "0x" + "10";
    ParseHex("10");
    assert "10"[..1] == "1" && "1"[..0] == "";
  }

  /** `parseInt(s) || fallback`: `NaN` and `0` are both falsy and give way to the fallback. */
  function IntOr(s: string, fallback: int): (r: int)
    ensures r == fallback <==> ParseInt(s).None? || ParseInt(s).value == 0 || ParseInt(s).value == fallback
    ensures r != fallback ==> ParseInt(s) == Some(r)
  {
    match ParseInt(s)
    case None => fallback
    case Some(v) => if v == 0 then fallback else v
  }

  /** `${n}` for a natural number: its shortest decimal digits. */
  function DecimalString(n: nat): (r: string)
    ensures |r| >= 1
    ensures forall i :: 0 <= i < |r| ==> IsDigit(r[i])
    ensures |r| > 1 ==> r[0] != '0'
    decreases n
  {
    var d := [('0' as int + n % 10) as char];
    if n < 10 then d else DecimalString(n / 10) + d
  }

  /** `${i}` for an integer: a minus sign before the digits of a negative value. */
  function IntString(i: int): (r: string)
    ensures |r| >= 1
    ensures forall k :: 0 <= k < |r| ==> r[k] == '-' || IsDigit(r[k])
  {
    if i < 0 then "-" + DecimalString(-i) else DecimalString(i)
  }

  lemma {:induction false} DecimalValue(n: nat)
    ensures DigitsValue(DecimalString(n)) == n
    decreases n
  {
    var s := DecimalString(n);
    if n >= 10 {
      DecimalValue(n / 10);
      assert s[..|s| - 1] == DecimalString(n / 10);
    }
  }

  /** Rendering an integer and reading it back with `parseInt` gives the integer: the two
      conversions the application performs on numbers in strings agree. */
  lemma ParseIntString(i: int)
    ensures ParseInt(IntString(i)) == Some(i)
  {
    var s := IntString(i);
    var d := DecimalString(if i < 0 then -i else i);
    DecimalValue(if i < 0 then -i else i);
    assert SpaceRun(s) == 0;
    assert s[0..] == s;
    if i < 0 {
      assert s[1..] == d;
    } else {
      assert IsDigit(s[0]);
    }
    assert d[..|d|] == d;
  }
}
