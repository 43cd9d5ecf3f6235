/** Decimal text <-> natural numbers.

    `Parse` models how the solvers use std::stoi, std::stoll and std::stoull:
    leading white space is skipped, at least one decimal digit must follow
    (otherwise the library throws invalid_argument), and the conversion
    stops at the first character that is not a digit. `ToDecimal` models
    std::to_string on a non-negative number. */
module Decimal {
  import opened Wrappers

  predicate IsDigit(c: char) {
    '0' <= c <= '9'
  }

  /** The characters std::isspace accepts in the "C" locale. */
  predicate IsSpace(c: char) {
    c == ' ' || c == '\t' || c == '\n' || c == '\r' || c == '\U{B}' || c == '\U{C}'
  }

  predicate AllDigits(s: string) {
    forall k :: 0 <= k < |s| ==> IsDigit(s[k])
  }

  function DigitOf(c: char): (d: nat)
    requires IsDigit(c)
    ensures d < 10
  {
    c as int - '0' as int
  }

  function DigitChar(d: nat): (c: char)
    requires d < 10
    ensures IsDigit(c) && DigitOf(c) == d
  {
    ('0' as int + d) as char
  }

  function Pow10(n: nat): (p: nat)
    ensures p >= 1
  {
    if n == 0 then 1 else 10 * Pow10(n - 1)
  }

  /** The number a digit string denotes, accumulated left to right. */
  function Value(s: string): nat
    requires AllDigits(s)
  {
    if s == [] then 0 else 10 * Value(s[..|s| - 1]) + DigitOf(s[|s| - 1])
  }

  /** The value of the first n digits, indexed rather than sliced, which
      the verifier can evaluate on a literal string. */
  function PrefixValue(s: string, n: nat): nat
    requires n <= |s| && AllDigits(s)
  {
    if n == 0 then 0 else 10 * PrefixValue(s, n - 1) + DigitOf(s[n - 1])
  }

  lemma {:induction false} PrefixValueIsValue(s: string, n: nat)
    requires n <= |s| && AllDigits(s)
    ensures AllDigits(s[..n]) && Value(s[..n]) == PrefixValue(s, n)
  {
    if n > 0 {
      PrefixValueIsValue(s, n - 1);
      assert s[..n][..n - 1] == s[..n - 1];
    }
  }

  /** Reading a literal digit string, through its indexed value. */
  lemma ParseLiteral(s: string, len: nat, n: nat)
    requires AllDigits(s) && |s| == len > 0 && PrefixValue(s, len) == n
    ensures Parse(s) == Ok(n)
  {
    PrefixValueIsValue(s, len);
    assert s[..len] == s;
  }

  lemma {:induction false} ValueConcat(a: string, b: string)
    requires AllDigits(a) && AllDigits(b)
    ensures AllDigits(a + b)
    ensures Value(a + b) == Value(a) * Pow10(|b|) + Value(b)
  {
    if b == [] {
      assert a + b == a;
      return;
    }
    var b', c := b[..|b| - 1], b[|b| - 1];
    assert b == b' + [c];
    assert AllDigits(b');
    ValueConcat(a, b');
    var va, vb', d, p' := Value(a), Value(b'), DigitOf(c), Pow10(|b'|);
    assert AllDigits(a + b) && Value(a + b) == 10 * (va * p' + vb') + d by {
      assert a + b == (a + b') + [c];
      assert (a + b)[..|a + b| - 1] == a + b';
    }
    assert Value(b) == 10 * vb' + d;
    assert Pow10(|b|) == 10 * p';
    ShiftDigit(va, p', vb', d);
  }

  lemma ShiftDigit(va: nat, p: nat, vb: nat, d: nat)
    ensures 10 * (va * p + vb) + d == va * (10 * p) + (10 * vb + d)
  {
    assert 10 * (va * p) == va * (10 * p);
  }

  lemma {:induction false} ValueBound(s: string)
    requires AllDigits(s)
    ensures Value(s) < Pow10(|s|)
  {
    if s != [] {
      ValueBound(s[..|s| - 1]);
    }
  }

  /** Value of a digit string whose first digit is given separately. */
  lemma ValueCons(s: string)
    requires AllDigits(s) && s != []
    ensures Value(s) == DigitOf(s[0]) * Pow10(|s| - 1) + Value(s[1..])
  {
    var h, t := [s[0]], s[1..];
    assert s == h + t;
    assert h[..0] == [];
    assert Value(h) == DigitOf(s[0]);
    ValueConcat(h, t);
  }

  /** std::to_string of a non-negative number: no leading zero, and reading
      it back gives the number. */
  function ToDecimal(n: nat): (s: string)
    ensures |s| >= 1 && AllDigits(s) && Value(s) == n
    ensures |s| > 1 ==> s[0] != '0'
  {
    if n < 10 then
      [DigitChar(n)]
    else
      var p := ToDecimal(n / 10);
      assert (p + [DigitChar(n % 10)])[..|p|] == p;
      assert |p| == 1 ==> p[0] != '0' by {
        if |p| == 1 {
          assert p[..0] == [];
          assert Value(p) == DigitOf(p[0]);
        }
      }
      p + [DigitChar(n % 10)]
  }

  lemma {:induction false} ToDecimalLengthMono(n: nat, m: nat)
    requires n <= m
    ensures |ToDecimal(n)| <= |ToDecimal(m)|
  {
    if n >= 10 {
      ToDecimalLengthMono(n / 10, m / 10);
    }
  }

  /** Index of the first character at or after `i` that is not white space. */
  function SkipSpaces(s: string, i: nat): (k: nat)
    requires i <= |s|
    ensures i <= k <= |s|
    ensures forall t :: i <= t < k ==> IsSpace(s[t])
    ensures k == |s| || !IsSpace(s[k])
    decreases |s| - i
  {
    if i < |s| && IsSpace(s[i]) then SkipSpaces(s, i + 1) else i
  }

  /** End of the run of digits that starts at `i`. */
  function DigitsEnd(s: string, i: nat): (k: nat)
    requires i <= |s|
    ensures i <= k <= |s|
    ensures forall t :: i <= t < k ==> IsDigit(s[t])
    ensures k == |s| || !IsDigit(s[k])
    decreases |s| - i
  {
    if i < |s| && IsDigit(s[i]) then DigitsEnd(s, i + 1) else i
  }

  /** std::stoll and friends on text without a sign. */
  function Parse(s: string): (r: Result<nat>)
    ensures AllDigits(s) && s != [] ==> r == Ok(Value(s))
    ensures (forall t :: 0 <= t < |s| ==> !IsDigit(s[t])) ==> r == Err
  {
    var i := SkipSpaces(s, 0);
    var k := DigitsEnd(s, i);
    assert AllDigits(s) && s != [] ==> i == 0 && k == |s| && s[i..k] == s by {
      if AllDigits(s) && s != [] {
        assert !IsSpace(s[0]);
        DigitsEndAll(s, 0);
      }
    }
    if i == k then Err else Ok(Value(s[i..k]))
  }

  lemma {:induction false} DigitsEndAll(s: string, i: nat)
    requires i <= |s|
    requires forall t :: i <= t < |s| ==> IsDigit(s[t])
    ensures DigitsEnd(s, i) == |s|
    decreases |s| - i
  {
    if i < |s| {
      DigitsEndAll(s, i + 1);
    }
  }

  lemma {:induction false} SkipSpacesTo(s: string, i: nat, k: nat)
    requires i <= k <= |s|
    requires forall t :: i <= t < k ==> IsSpace(s[t])
    requires k == |s| || !IsSpace(s[k])
    ensures SkipSpaces(s, i) == k
    decreases k - i
  {
    if i < k {
      SkipSpacesTo(s, i + 1, k);
    }
  }

  lemma {:induction false} DigitsEndTo(s: string, i: nat, k: nat)
    requires i <= k <= |s|
    requires forall t :: i <= t < k ==> IsDigit(s[t])
    requires k == |s| || !IsDigit(s[k])
    ensures DigitsEnd(s, i) == k
    decreases k - i
  {
    if i < k {
      DigitsEndTo(s, i + 1, k);
    }
  }

  /** The full behaviour of the conversion: white space, then a maximal run
      of digits, then anything that does not start with a digit. */
  lemma ParseDecimal(spaces: string, digits: string, rest: string)
    requires forall t :: 0 <= t < |spaces| ==> IsSpace(spaces[t])
    requires digits != [] && AllDigits(digits)
    requires rest == [] || !IsDigit(rest[0])
    ensures Parse(spaces + digits + rest) == Ok(Value(digits))
  {
    var s := spaces + digits + rest;
    var i, k := |spaces|, |spaces| + |digits|;
    assert s[i] == digits[0];
    SkipSpacesTo(s, 0, i);
    assert k < |s| ==> s[k] == rest[0];
    DigitsEndTo(s, i, k);
    assert s[i..k] == digits;
  }

  /** Text that, after white space, does not start with a digit is rejected. */
  lemma ParseRejects(spaces: string, rest: string)
    requires forall t :: 0 <= t < |spaces| ==> IsSpace(spaces[t])
    requires rest == [] || (!IsDigit(rest[0]) && !IsSpace(rest[0]))
    ensures Parse(spaces + rest) == Err
  {
    var s := spaces + rest;
    assert |spaces| < |s| ==> s[|spaces|] == rest[0];
    SkipSpacesTo(s, 0, |spaces|);
  }
}
