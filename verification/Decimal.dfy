// Decimal text: the printers (strconv.FormatInt, fmt's %d, StringInt32) and the
// parsers (strconv.ParseUint and ParseInt in base 10) that must undo them.
module Decimal {
  import opened Base

  predicate IsDigit(c: char) {
    '0' <= c <= '9'
  }

  predicate AllDigits(s: string) {
    forall i :: 0 <= i < |s| ==> IsDigit(s[i])
  }

  function DigitChar(d: int): (c: char)
    requires 0 <= d < 10
    ensures IsDigit(c) && DigitValue(c) == d
  {
    '0' + d as char
  }

  function DigitValue(c: char): int {
    c as int - '0' as int
  }

  // Canonical decimal text of a natural number.
  function Digits(n: nat): string {
    if n < 10 then [DigitChar(n)] else Digits(n / 10) + [DigitChar(n % 10)]
  }

  // The number a digit string denotes, leading zeros allowed.
  function Value(s: string): int {
    if s == "" then 0 else 10 * Value(s[..|s| - 1]) + DigitValue(s[|s| - 1])
  }

  // strconv.ParseUint(s, 10, bits) with limit == 2^bits: no sign, no separator.
  function ParseUint(s: string, limit: nat): Option<int> {
    if s != "" && AllDigits(s) && 0 <= Value(s) < limit then Some(Value(s)) else None
  }

  // strconv.ParseInt(s, 10, bits) with half == 2^(bits-1): one optional sign.
  function ParseInt(s: string, half: nat): Option<int> {
    if s == "" then None
    else if s[0] == '-' then
      match ParseUint(s[1..], half + 1) case Some(v) => Some(-v) case None => None
    else
      ParseUint(if s[0] == '+' then s[1..] else s, half)
  }

  // strconv.FormatInt(n, 10).
  function IntText(n: int): string {
    if n < 0 then "-" + Digits(-n) else Digits(n)
  }

  // No leading zero except in "0" itself.
  predicate Canonical(s: string) {
    s != "" && AllDigits(s) && (s[0] == '0' ==> |s| == 1)
  }

  lemma {:induction false} DigitsAreCanonical(n: nat)
    ensures Canonical(Digits(n)) && Value(Digits(n)) == n
    ensures Digits(n)[0] == '0' <==> n == 0
  {
    if n >= 10 {
      DigitsAreCanonical(n / 10);
      var front := Digits(n / 10);
      assert Digits(n)[..|Digits(n)| - 1] == front;
    } else {
      assert Digits(n)[..0] == "";
    }
  }

  // Digits is the only canonical text of a number.
  lemma {:induction false} CanonicalIsDigits(s: string)
    requires Canonical(s)
    ensures Value(s) >= 0 && Digits(Value(s)) == s
    ensures |s| > 1 ==> Value(s) >= 10
  {
    var front, d := s[..|s| - 1], DigitValue(s[|s| - 1]);
    if |s| == 1 {
      assert front == "" && Value(front) == 0;
    } else {
      CanonicalIsDigits(front);
      assert front[0] == s[0];
      if |front| == 1 {
        assert front[..0] == "";
        assert Value(front) == DigitValue(s[0]) >= 1;
      }
      assert Value(s) / 10 == Value(front) && Value(s) % 10 == d;
      assert s == front + [s[|s| - 1]];
    }
  }

  // Parsing undoes printing exactly on the numbers that fit the width.
  lemma ParseUintPrints(n: nat, limit: nat)
    ensures ParseUint(Digits(n), limit) == if n < limit then Some(n) else None
  {
    DigitsAreCanonical(n);
  }

  lemma ParseIntPrints(n: int, half: nat)
    ensures ParseInt(IntText(n), half) == if 0 <= n + half && n < half then Some(n) else None
  {
    if n < 0 {
      assert IntText(n)[0] == '-' && IntText(n)[1..] == Digits(-n);
      ParseUintPrints(-n, half + 1);
    } else {
      DigitsAreCanonical(n);
      ParseUintPrints(n, half);
    }
  }

  // An unsigned parser refuses every negative number's text.
  lemma ParseUintRefusesNegative(n: int, limit: nat)
    requires n < 0
    ensures ParseUint(IntText(n), limit) == None
  {
    assert !IsDigit(IntText(n)[0]);
  }

  function Zeros(k: nat): string {
    seq(k, _ => '0')
  }

  lemma {:induction false} ZerosAreNothing(k: nat, s: string)
    ensures Value(Zeros(k) + s) == Value(s)
  {
    if s == "" {
      assert Zeros(k) + s == Zeros(k);
      if k > 0 {
        assert Zeros(k)[..k - 1] == Zeros(k - 1) + "";
        ZerosAreNothing(k - 1, "");
      }
    } else {
      ZerosAreNothing(k, s[..|s| - 1]);
      assert (Zeros(k) + s)[..k + |s| - 1] == Zeros(k) + s[..|s| - 1];
    }
  }

  // Every digit string is some zeros before the canonical text of its number.
  lemma {:induction false} ZerosBeforeDigits(s: string) returns (k: nat)
    requires s != "" && AllDigits(s)
    ensures Value(s) >= 0 && s == Zeros(k) + Digits(Value(s))
  {
    if s[0] == '0' && |s| > 1 {
      var j := ZerosBeforeDigits(s[1..]);
      ZerosAreNothing(1, s[1..]);
      k := j + 1;
      assert s == Zeros(1) + s[1..];
      assert Zeros(k) == Zeros(1) + Zeros(j);
    } else {
      CanonicalIsDigits(s);
      k := 0;
    }
  }

  // The text of n behind any number of zeros.
  ghost predicate IsText(s: string, n: nat) {
    exists k: nat :: s == Zeros(k) + Digits(n)
  }

  lemma TextBegins(s: string, n: nat)
    requires IsText(s, n)
    ensures s != "" && IsDigit(s[0])
  {
    var k: nat :| s == Zeros(k) + Digits(n);
    DigitsAreCanonical(n);
    assert s[0] == if k > 0 then '0' else Digits(n)[0];
  }

  // What the unsigned parser accepts as n: that text, if n is below the limit.
  lemma ParseUintAccepts(s: string, limit: nat, n: nat)
    ensures ParseUint(s, limit) == Some(n) <==> n < limit && IsText(s, n)
  {
    DigitsAreCanonical(n);
    if ParseUint(s, limit) == Some(n) {
      var k := ZerosBeforeDigits(s);
    }
    if IsText(s, n) {
      var k: nat :| s == Zeros(k) + Digits(n);
      ZerosAreNothing(k, Digits(n));
    }
  }

  // The signed parser takes one sign before it, a minus for numbers down to -half.
  lemma ParseIntAccepts(s: string, half: nat, n: int)
    ensures ParseInt(s, half) == Some(n) <==>
      || (0 <= n < half && IsText(s, n))
      || (0 <= n < half && s != "" && s[0] == '+' && IsText(s[1..], n))
      || (0 <= -n <= half && s != "" && s[0] == '-' && IsText(s[1..], -n))
  {
    if s != "" && s[0] == '-' {
      if n <= 0 { ParseUintAccepts(s[1..], half + 1, -n); }
      if 0 <= n && IsText(s, n) { TextBegins(s, n); }
    } else if s != "" && s[0] == '+' {
      if n >= 0 { ParseUintAccepts(s[1..], half, n); }
      if 0 <= n && IsText(s, n) { TextBegins(s, n); }
    } else if n >= 0 {
      ParseUintAccepts(s, half, n);
      if IsText(s, n) { TextBegins(s, n); }
    }
  }

  // The digits are those of base ten.
  lemma DigitCharOf(d: int)
    requires 0 <= d < 10
    ensures DigitChar(d) == "0123456789"[d] && IntText(-10) == "-10"
  {
    assert Digits(1) == "1" && Digits(10) == Digits(1) + "0";
  }

  lemma {:induction false} DigitsTailSplit(i: nat, tail: string)
    requires i >= 10
    ensures Digits(i / 10) + ([DigitChar(i % 10)] + tail) == Digits(i) + tail
  {
    assert Digits(i / 10) + ([DigitChar(i % 10)] + tail) == (Digits(i / 10) + [DigitChar(i % 10)]) + tail;
  }

  // A number below 10^k has at most k digits.
  lemma {:induction false} DigitsFit(n: nat, k: nat, bound: nat)
    requires n < bound && bound == Power10(k) && k > 0
    ensures |Digits(n)| <= k
  {
    if n < 10 {
    } else {
      DigitsFit(n / 10, k - 1, bound / 10);
    }
  }

  ghost function Power10(k: nat): nat {
    if k == 0 then 1 else 10 * Power10(k - 1)
  }

  lemma TenBillion()
    ensures Power10(10) == 10_000_000_000
  {
    assert Power10(3) == 1000;
    assert Power10(6) == 1000_000;
    assert Power10(9) == 1000_000_000;
  }

  // components.StringInt32: fill an 11-byte buffer from its end.
  method StringInt32(n: int) returns (s: string)
    requires -0x8000_0000 <= n < 0x8000_0000
    ensures s == IntText(n)
    ensures ParseInt(s, 0x8000_0000) == Some(n)
  {
    var buf := new char[11];
    var pos := buf.Length;
    var i: int := n;
    var signed := i < 0;
    if signed {
      i := -i;
    }
    ghost var m: nat := i;
    TenBillion();
    DigitsFit(m, 10, 10_000_000_000);
    while true
      invariant 0 < pos <= 11 && i >= 0
      invariant Digits(i) + buf[pos..] == Digits(m)
      decreases i
    {
      ghost var tail, before := buf[pos..], i;
      pos := pos - 1;
      buf[pos], i := DigitChar(i % 10), i / 10;
      assert buf[pos..] == [DigitChar(before % 10)] + tail;
      if i == 0 {
        assert buf[pos..] == Digits(m);
        if signed {
          pos := pos - 1;
          buf[pos] := '-';
          assert buf[pos..] == "-" + buf[pos + 1..];
        }
        ParseIntPrints(n, 0x8000_0000);
        return buf[pos..];
      }
      DigitsTailSplit(before, tail);
    }
  }
}
