/**
  Go strings are byte sequences: `len` counts bytes and slicing cuts bytes.
  This module gives the byte type, decimal formatting as `fmt` writes `%d`,
  and `strings.Split` on a one-byte separator.
 */
module Bytes {

  newtype byte = b: int | 0 <= b < 256

  /** A Go `string`. */
  type Str = seq<byte>

  const Colon: byte := 58       // ':'
  const Minus: byte := 45       // '-'
  const Plus: byte := 43        // '+'
  const Zero: byte := 48        // '0'

  predicate IsDigit(b: byte) { 48 <= b <= 57 }

  predicate HasPrefix(s: Str, p: Str) { |p| <= |s| && s[..|p|] == p }

  /** No byte of `s` equals `b`. */
  predicate Free(s: Str, b: byte) { forall i | 0 <= i < |s| :: s[i] != b }

  /** Number of occurrences of `b` in `s`. */
  function Count(s: Str, b: byte): nat
  {
    if s == [] then 0 else (if s[0] == b then 1 else 0) + Count(s[1..], b)
  }

  // ---------------------------------------------------------------------------
  // Decimal numbers, as `fmt.Sprintf("%d", n)` writes them

  /** The decimal digits of `n`, most significant first, without leading zeros. */
  function Digits(n: nat): (r: Str)
    ensures |r| >= 1
    ensures forall i | 0 <= i < |r| :: IsDigit(r[i])
  {
    if n < 10 then [Zero + n as byte] else Digits(n / 10) + [Zero + (n % 10) as byte]
  }

  /** `fmt.Sprintf("%d", n)`: an optional minus sign, then the digits of |n|. */
  function Itoa(n: int): Str
  {
    if n < 0 then [Minus] + Digits(-n) else Digits(n)
  }

  /** The value of a run of decimal digits, read most significant first. */
  function DecimalValue(s: Str): nat
    requires forall i | 0 <= i < |s| :: IsDigit(s[i])
  {
    if s == [] then 0
    else
      var last := s[|s| - 1];
      assert IsDigit(last);
      10 * DecimalValue(s[..|s| - 1]) + (last as int - 48)
  }

  /** Length of the run of decimal digits that starts at `s[i]`. */
  function DigitRun(s: Str, i: nat): (k: nat)
    requires i <= |s|
    ensures i + k <= |s|
    ensures forall j | i <= j < i + k :: IsDigit(s[j])
    ensures i + k < |s| ==> !IsDigit(s[i + k])
    decreases |s| - i
  {
    if i < |s| && IsDigit(s[i]) then 1 + DigitRun(s, i + 1) else 0
  }

  lemma {:induction false} DecimalValueOfDigits(n: nat)
    ensures DecimalValue(Digits(n)) == n
  {
    if n >= 10 {
      var d := Digits(n);
      assert d[..|d| - 1] == Digits(n / 10);
      DecimalValueOfDigits(n / 10);
    }
  }

  /** Reading a digit run stops exactly at the first non-digit after it. */
  lemma {:induction false} DigitRunOfDigits(d: Str, rest: Str)
    requires forall i | 0 <= i < |d| :: IsDigit(d[i])
    requires rest == [] || !IsDigit(rest[0])
    ensures DigitRun(d + rest, 0) == |d|
  {
    var s := d + rest;
    var j := |d|;
    assert DigitRun(s, j) == 0;
    while j > 0
      invariant 0 <= j <= |d|
      invariant DigitRun(s, j) == |d| - j
    {
      j := j - 1;
      assert IsDigit(s[j]);
    }
  }

  // ---------------------------------------------------------------------------
  // strings.Split on a one-byte separator

  /** Index of the first `b` in `s`, or `|s|` when there is none. */
  function IndexOf(s: Str, b: byte): (k: nat)
    ensures k <= |s|
    ensures k < |s| ==> s[k] == b
    ensures Free(s[..k], b)
  {
    if s == [] then 0 else if s[0] == b then 0 else 1 + IndexOf(s[1..], b)
  }

  /**
    `strings.Split(s, sep)` for a one-byte separator: the maximal separator-free
    pieces between separators, so one more piece than there are separators.
   */
  function Split(s: Str, sep: byte): (parts: seq<Str>)
    ensures |parts| >= 1
    decreases |s|
  {
    var k := IndexOf(s, sep);
    if k == |s| then [s] else [s[..k]] + Split(s[k + 1..], sep)
  }

  /** `strings.Join(parts, sep)`. */
  function Join(parts: seq<Str>, sep: byte): Str
  {
    if |parts| == 0 then [] else if |parts| == 1 then parts[0]
    else parts[0] + [sep] + Join(parts[1..], sep)
  }

  /** Split cuts `s` into separator-free pieces that join back to `s`, one per separator plus one. */
  lemma {:induction false} SplitJoin(s: Str, sep: byte)
    ensures Join(Split(s, sep), sep) == s
    ensures |Split(s, sep)| == Count(s, sep) + 1
    ensures forall i | 0 <= i < |Split(s, sep)| :: Free(Split(s, sep)[i], sep)
    decreases |s|
  {
    var k := IndexOf(s, sep);
    if k < |s| {
      var a, rest := s[..k], s[k + 1..];
      assert s == a + [sep] + rest;
      assert s == a + ([sep] + rest);
      SplitCons(a, rest, sep);
      SplitJoin(rest, sep);
      var ps := Split(rest, sep);
      assert Split(s, sep) == [a] + ps;
      assert Join([a] + ps, sep) == a + [sep] + Join(ps, sep);
      CountFree(a, sep);
      CountAppend(a, [sep] + rest, sep);
      CountAppend([sep], rest, sep);
      assert Count([sep], sep) == 1 by { assert [sep][1..] == []; }
      assert Count(s, sep) == Count(rest, sep) + 1;
      assert |Split(s, sep)| == 1 + |ps|;
    } else {
      assert s[..k] == s;
      CountFree(s, sep);
    }
  }

  /** Splitting `a + sep + rest`, where `a` has no separator, yields `a` and then the pieces of `rest`. */
  lemma {:induction false} SplitCons(a: Str, rest: Str, sep: byte)
    requires Free(a, sep)
    ensures Split(a + [sep] + rest, sep) == [a] + Split(rest, sep)
  {
    var s := a + [sep] + rest;
    assert s == a + ([sep] + rest);
    IndexOfFree(a, [sep] + rest, sep);
    assert IndexOf(s, sep) == |a| < |s|;
    assert s[..|a|] == a;
    assert s[|a| + 1..] == rest;
    assert Split(s, sep) == [s[..|a|]] + Split(s[|a| + 1..], sep);
  }

  /** A separator-free string is one piece. */
  lemma SplitFree(s: Str, sep: byte)
    requires Free(s, sep)
    ensures Split(s, sep) == [s]
  {
    IndexOfFree(s, [], sep);
    assert s + [] == s;
  }

  lemma {:induction false} IndexOfFree(a: Str, rest: Str, b: byte)
    requires Free(a, b)
    requires rest == [] || rest[0] == b
    ensures IndexOf(a + rest, b) == |a|
  {
    if a != [] {
      assert (a + rest)[1..] == a[1..] + rest;
      IndexOfFree(a[1..], rest, b);
    }
  }

  lemma {:induction false} CountFree(s: Str, b: byte)
    requires Free(s, b)
    ensures Count(s, b) == 0
  {
    if s != [] { CountFree(s[1..], b); }
  }

  lemma {:induction false} CountAppend(s: Str, t: Str, b: byte)
    ensures Count(s + t, b) == Count(s, b) + Count(t, b)
  {
    if s != [] {
      var st := s + t;
      assert st[0] == s[0];
      assert st[1..] == s[1..] + t;
      CountAppend(s[1..], t, b);
      assert Count(st, b) == (if s[0] == b then 1 else 0) + Count(st[1..], b);
    } else {
      assert s + t == t;
    }
  }
}
