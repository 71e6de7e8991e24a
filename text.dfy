/**
 * The JavaScript string operations the core relies on: `toLowerCase` and
 * `toUpperCase` (on ASCII letters), `trim`, `slice`, `parseInt` and the
 * decimal rendering of an integer.
 */
module Text {
  import opened Common

  // ---------------------------------------------------------------------
  // Case
  // ---------------------------------------------------------------------

  function LowerChar(c: char): char
  {
    if 'A' <= c <= 'Z' then (c as int + 32) as char else c
  }

  function UpperChar(c: char): char
  {
    if 'a' <= c <= 'z' then (c as int - 32) as char else c
  }

  /** No upper-case ASCII letter occurs in `s`. */
  predicate IsLower(s: string)
  {
    forall i :: 0 <= i < |s| ==> !('A' <= s[i] <= 'Z')
  }

  /** `s.toLowerCase()` on ASCII letters. */
  function Lower(s: string): (r: string)
    ensures |r| == |s| && IsLower(r)
    ensures IsLower(s) ==> r == s
    ensures forall i :: 0 <= i < |s| && !('A' <= s[i] <= 'Z') ==> r[i] == s[i]
  {
    seq(|s|, i requires 0 <= i < |s| => LowerChar(s[i]))
  }

  lemma LowerIdempotent(s: string)
    ensures Lower(Lower(s)) == Lower(s)
  {
  }

  /** `a.toLowerCase() === b.toLowerCase()`. */
  predicate EqualsIgnoringCase(a: string, b: string)
  {
    Lower(a) == Lower(b)
  }

  // ---------------------------------------------------------------------
  // trim
  // ---------------------------------------------------------------------

  /** The WhiteSpace and LineTerminator code points of ECMAScript. */
  predicate IsSpace(c: char)
  {
    var n := c as int;
    n == 0x09 || n == 0x0A || n == 0x0B || n == 0x0C || n == 0x0D || n == 0x20
    || n == 0xA0 || n == 0x1680 || (0x2000 <= n <= 0x200A) || n == 0x2028
    || n == 0x2029 || n == 0x202F || n == 0x205F || n == 0x3000 || n == 0xFEFF
  }

  /** `s.trimStart()`: drops the leading white space and nothing else. */
  function TrimStart(s: string): (r: string)
    ensures |r| <= |s| && r == s[|s| - |r|..]
    decreases |s|
  {
    if |s| > 0 && IsSpace(s[0]) then TrimStart(s[1..]) else s
  }

  /** What `TrimStart` drops is white space, and what it keeps does not start with any. */
  lemma {:induction false} TrimStartDropsSpace(s: string)
    ensures var r := TrimStart(s);
      && (r == [] || !IsSpace(r[0]))
      && forall i :: 0 <= i < |s| - |r| ==> IsSpace(s[i])
    decreases |s|
  {
    if |s| > 0 && IsSpace(s[0]) {
      TrimStartDropsSpace(s[1..]);
      var r := TrimStart(s);
      forall i | 0 < i < |s| - |r|
        ensures IsSpace(s[i])
      {
        assert s[1..][i - 1] == s[i];
      }
    }
  }

  /** `s.trimEnd()`: drops the trailing white space and nothing else. */
  function TrimEnd(s: string): (r: string)
    ensures |r| <= |s| && r == s[..|r|]
    decreases |s|
  {
    if |s| > 0 && IsSpace(s[|s| - 1]) then TrimEnd(s[..|s| - 1]) else s
  }

  /** What `TrimEnd` drops is white space, and what it keeps does not end with any. */
  lemma {:induction false} TrimEndDropsSpace(s: string)
    ensures var r := TrimEnd(s);
      && (r == [] || !IsSpace(r[|r| - 1]))
      && forall i :: |r| <= i < |s| ==> IsSpace(s[i])
    decreases |s|
  {
    if |s| > 0 && IsSpace(s[|s| - 1]) {
      TrimEndDropsSpace(s[..|s| - 1]);
      var r := TrimEnd(s);
      forall i | |r| <= i < |s| - 1
        ensures IsSpace(s[i])
      {
        assert s[..|s| - 1][i] == s[i];
      }
    }
  }

  /** `s.trim()`. */
  function Trim(s: string): (r: string)
  {
    TrimEnd(TrimStart(s))
  }

  /** A prefix of a suffix is an infix. */
  lemma PrefixOfSuffix<T>(s: seq<T>, t: seq<T>, r: seq<T>)
    requires |t| <= |s| && t == s[|s| - |t|..]
    requires |r| <= |t| && r == t[..|r|]
    ensures |s| - |t| + |r| <= |s| && r == s[|s| - |t|..|s| - |t| + |r|]
    ensures forall i :: |s| - |t| <= i < |s| ==> s[i] == t[i - (|s| - |t|)]
  {
  }

  /** `trim` keeps one infix of the string. */
  lemma TrimIsInfix(s: string)
    ensures var k := |s| - |TrimStart(s)|;
      k + |Trim(s)| <= |s| && Trim(s) == s[k..k + |Trim(s)|]
  {
    var t := TrimStart(s);
    var r := TrimEnd(t);
    assert |t| <= |s| && t == s[|s| - |t|..];
    assert |r| <= |t| && r == t[..|r|];
    PrefixOfSuffix(s, t, r);
  }

  /** What `trim` keeps neither starts nor ends with white space, and what
      it drops on either side is white space. */
  lemma TrimDropsSpace(s: string)
    ensures var r := Trim(s); var k := |s| - |TrimStart(s)|;
      && (r == [] || (!IsSpace(r[0]) && !IsSpace(r[|r| - 1])))
      && (forall i :: 0 <= i < k ==> IsSpace(s[i]))
      && (forall i :: k + |r| <= i < |s| ==> IsSpace(s[i]))
  {
    var t := TrimStart(s);
    var r := TrimEnd(t);
    assert |t| <= |s| && t == s[|s| - |t|..];
    assert |r| <= |t| && r == t[..|r|];
    TrimStartDropsSpace(s);
    TrimEndDropsSpace(t);
    PrefixOfSuffix(s, t, r);
    if r != [] {
      assert r[0] == t[0];
    }
  }

  /** A string trims to "" exactly when it is all white space. */
  lemma TrimEmptyIff(s: string)
    ensures Trim(s) == "" <==> forall i :: 0 <= i < |s| ==> IsSpace(s[i])
  {
    if forall i :: 0 <= i < |s| ==> IsSpace(s[i]) {
      AllSpaceTrimsEmpty(s);
    } else if Trim(s) == "" {
      EmptyTrimAllSpace(s);
    }
  }

  /** All white space trims to "" from the start already. */
  lemma {:induction false} AllSpaceTrimsEmpty(s: string)
    requires forall i :: 0 <= i < |s| ==> IsSpace(s[i])
    ensures TrimStart(s) == ""
    decreases |s|
  {
    if |s| > 0 {
      assert IsSpace(s[0]);
      assert forall i :: 0 <= i < |s| - 1 ==> s[1..][i] == s[i + 1];
      AllSpaceTrimsEmpty(s[1..]);
    }
  }

  /** What trims to "" is all white space. */
  lemma EmptyTrimAllSpace(s: string)
    requires Trim(s) == ""
    ensures forall i :: 0 <= i < |s| ==> IsSpace(s[i])
  {
    var t := TrimStart(s);
    TrimStartDropsSpace(s);
    TrimEndDropsSpace(t);
    assert |t| == 0;
  }

  lemma TrimIdempotent(s: string)
    ensures Trim(Trim(s)) == Trim(s)
  {
    var t := TrimStart(s);
    var r := Trim(s);
    TrimStartDropsSpace(s);
    TrimEndDropsSpace(t);
    if r != [] {
      assert r[0] == t[0];
      assert TrimStart(r) == r;
      assert TrimEnd(r) == r;
    }
  }

  // ---------------------------------------------------------------------
  // slice
  // ---------------------------------------------------------------------

  /** A `slice` argument resolved against the length: negative counts from the end. */
  function ClampIndex(k: int, len: nat): (r: nat)
    ensures r <= len
    ensures 0 <= k <= len ==> r == k
    ensures k < 0 && len + k >= 0 ==> r == len + k
  {
    if k < 0 then (if len + k < 0 then 0 else len + k)
    else if k > len then len
    else k
  }

  /** `s.slice(start)` when `end` is None, `s.slice(start, end)` otherwise. */
  function Slice(s: string, start: int, end: Option<int>): (r: string)
    ensures |r| <= |s|
  {
    var from := ClampIndex(start, |s|);
    var to := if end.None? then |s| else ClampIndex(end.value, |s|);
    if from < to then s[from..to] else []
  }

  /** `s.slice(0, n)` is the first `n` characters, or all of a shorter string. */
  lemma SliceHead(s: string, n: nat)
    ensures Slice(s, 0, Some(n)) == s[..if n <= |s| then n else |s|]
  {
  }

  /** `s.slice(-n)` is the last `n` characters, or all of a shorter string. */
  lemma SliceTail(s: string, n: nat)
    requires n > 0
    ensures Slice(s, -(n as int), None) == s[if n <= |s| then |s| - n else 0..]
  {
  }

  // ---------------------------------------------------------------------
  // parseInt and the decimal rendering of an integer
  // ---------------------------------------------------------------------

  /** The value of an ASCII digit or letter as a digit (letters count from 10), else -1. */
  function DigitValue(c: char): (d: int)
    ensures -1 <= d < 36
  {
    if '0' <= c <= '9' then c as int - '0' as int
    else if 'a' <= c <= 'z' then c as int - 'a' as int + 10
    else if 'A' <= c <= 'Z' then c as int - 'A' as int + 10
    else -1
  }

  predicate IsDigitIn(c: char, radix: int)
  {
    0 <= DigitValue(c) < radix
  }

  predicate AllDigits(s: string, radix: int)
  {
    forall i :: 0 <= i < |s| ==> IsDigitIn(s[i], radix)
  }

  /** The length of the longest prefix of `s` made of digits of `radix`. */
  function DigitPrefixLength(s: string, radix: int): (k: nat)
    ensures k <= |s| && AllDigits(s[..k], radix)
    ensures k == |s| || !IsDigitIn(s[k], radix)
    decreases |s|
  {
    if |s| > 0 && IsDigitIn(s[0], radix) then
      var k := 1 + DigitPrefixLength(s[1..], radix);
      assert s[..k] == [s[0]] + s[1..][..k - 1];
      k
    else 0
  }

  /** The value of a digit string, most significant digit first. */
  function DigitsValue(d: string, radix: int): (v: int)
    requires AllDigits(d, radix) && radix > 1
    ensures v >= 0
  {
    if d == [] then 0
    else DigitsValue(d[..|d| - 1], radix) * radix + DigitValue(d[|d| - 1])
  }

  /** A digit run after the sign: base 16 behind a `0x`/`0X` prefix, base 10 otherwise. */
  function ParseUnsigned(u: string): (r: Option<nat>)
  {
    var hex := |u| >= 2 && u[0] == '0' && (u[1] == 'x' || u[1] == 'X');
    var radix := if hex then 16 else 10;
    var body := if hex then u[2..] else u;
    var k := DigitPrefixLength(body, radix);
    if k == 0 then None else Some(DigitsValue(body[..k], radix))
  }

  /**
   * `parseInt(s)` without a radix: leading white space is skipped, one
   * sign is read, a `0x`/`0X` prefix selects base 16, and the longest run
   * of digits that follows is the value; None stands for NaN.
   */
  function ParseInt(s: string): (r: Option<int>)
  {
    var t := TrimStart(s);
    var negative := |t| > 0 && t[0] == '-';
    var u := if |t| > 0 && (t[0] == '-' || t[0] == '+') then t[1..] else t;
    match ParseUnsigned(u)
    case None => None
    case Some(v) => Some(if negative then -(v as int) else v)
  }

  function DigitChar(d: int): (c: char)
    requires 0 <= d < 10
    ensures DigitValue(c) == d
  {
    ('0' as int + d) as char
  }

  /** The decimal digits of a natural number, without leading zeros. */
  function NatToString(n: nat): (s: string)
    ensures |s| > 0 && AllDigits(s, 10)
    ensures |s| > 1 ==> s[0] != '0'
  {
    if n < 10 then [DigitChar(n)]
    else
      var prefix := NatToString(n / 10);
      assert (prefix + [DigitChar(n % 10)])[0] == prefix[0];
      prefix + [DigitChar(n % 10)]
  }

  /** `String(n)` for an integer. */
  function IntToString(n: int): (s: string)
    ensures n >= 0 ==> |s| > 0 && AllDigits(s, 10)
    ensures n < 0 ==> |s| > 1 && s[0] == '-' && AllDigits(s[1..], 10)
  {
    if n < 0 then "-" + NatToString(-n) else NatToString(n)
  }

  lemma {:induction false} DigitsValueOfNatToString(n: nat)
    ensures DigitsValue(NatToString(n), 10) == n
  {
    var s := NatToString(n);
    if n >= 10 {
      DigitsValueOfNatToString(n / 10);
      assert s[..|s| - 1] == NatToString(n / 10);
    }
  }

  lemma {:induction false} DigitPrefixOfDigits(s: string, radix: int)
    requires AllDigits(s, radix)
    ensures DigitPrefixLength(s, radix) == |s|
    decreases |s|
  {
    if |s| > 0 {
      DigitPrefixOfDigits(s[1..], radix);
    }
  }

  /** The digit prefix of a digit run followed by a non-digit is the run. */
  lemma {:induction false} DigitPrefixOfDigitsThen(d: string, rest: string, radix: int)
    requires AllDigits(d, radix)
    requires rest == [] || !IsDigitIn(rest[0], radix)
    ensures DigitPrefixLength(d + rest, radix) == |d|
    decreases |d|
  {
    if |d| > 0 {
      assert (d + rest)[1..] == d[1..] + rest;
      DigitPrefixOfDigitsThen(d[1..], rest, radix);
    } else {
      assert d + rest == rest;
    }
  }

  /** An unsigned decimal run followed by a non-digit reads as the run. */
  lemma ParseUnsignedDigitPrefix(d: string, rest: string)
    requires |d| > 0 && AllDigits(d, 10)
    requires rest == [] || !IsDigitIn(rest[0], 10)
    requires |d| == 1 && d[0] == '0' ==> rest == [] || (rest[0] != 'x' && rest[0] != 'X')
    ensures ParseUnsigned(d + rest) == Some(DigitsValue(d, 10))
  {
    var u := d + rest;
    assert !(|u| >= 2 && u[0] == '0' && (u[1] == 'x' || u[1] == 'X')) by {
      assert u[0] == d[0];
      if |d| > 1 {
        assert u[1] == d[1] && IsDigitIn(d[1], 10);
      } else if |u| >= 2 {
        assert u[1] == rest[0];
      }
    }
    DigitPrefixOfDigitsThen(d, rest, 10);
    assert u[..|d|] == d;
  }

  /** `parseInt` reads a decimal run up to the first character that is not
      a digit: `parseInt("12px") === 12`. */
  lemma ParseIntDigitPrefix(d: string, rest: string)
    requires |d| > 0 && AllDigits(d, 10)
    requires rest == [] || !IsDigitIn(rest[0], 10)
    requires |d| == 1 && d[0] == '0' ==> rest == [] || (rest[0] != 'x' && rest[0] != 'X')
    ensures ParseInt(d + rest) == Some(DigitsValue(d, 10))
  {
    var u := d + rest;
    assert u[0] == d[0];
    DigitIsNotSpaceOrSign(d[0]);
    assert TrimStart(u) == u;
    ParseUnsignedDigitPrefix(d, rest);
  }

  /** A decimal digit is neither white space nor a sign. */
  lemma DigitIsNotSpaceOrSign(c: char)
    requires IsDigitIn(c, 10)
    ensures !IsSpace(c) && c != '-' && c != '+'
  {
  }

  /** A decimal rendering of a natural number reads back as that number. */
  lemma ParseUnsignedOfNatToString(m: nat)
    ensures ParseUnsigned(NatToString(m)) == Some(m)
  {
    var d := NatToString(m);
    DigitPrefixOfDigits(d, 10);
    assert d[..|d|] == d;
    DigitsValueOfNatToString(m);
  }

  /** `parseInt(String(n)) === n` for every integer. */
  lemma ParseIntRoundTrip(n: int)
    ensures ParseInt(IntToString(n)) == Some(n)
  {
    var m := if n < 0 then -n else n;
    var d := NatToString(m);
    var s := IntToString(n);
    assert !IsSpace(s[0]);
    assert TrimStart(s) == s;
    ParseUnsignedOfNatToString(m);
    if n < 0 {
      assert s[0] == '-' && s[1..] == d;
    } else {
      assert IsDigitIn(s[0], 10);
      assert s[0] != '-' && s[0] != '+';
    }
  }
}
