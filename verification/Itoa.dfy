/** Decimal text of a 32-bit integer. */
module Itoa {
  import opened Bytes

  const ZERO := 48
  const MINUS: Byte := 45

  // ---------------------------------------------------------------- C arithmetic

  /** Division of the source language: towards zero. */
  function Quot(a: int, b: nat): int
    requires 0 < b
  {
    if 0 <= a then a / b else -((-a) / b)
  }

  /** Its remainder, with the sign of the dividend. */
  function Rem(a: int, b: nat): int
    requires 0 < b
  {
    a - Quot(a, b) * b
  }

  // ---------------------------------------------------------------- decimal text

  predicate AllDigits(s: seq<Byte>) {
    forall i | 0 <= i < |s| :: IsDigit(s[i])
  }

  /** The number a digit string denotes. */
  function Value(s: seq<Byte>): nat
    requires AllDigits(s)
  {
    if s == [] then 0 else Value(s[..|s| - 1]) * 10 + Digit(s[|s| - 1])
  }

  function Digit(c: Byte): nat
    requires IsDigit(c)
  {
    var n: int := c;
    n - ZERO
  }

  /** Digits without a leading zero; the number zero is one digit. */
  predicate CanonicalDigits(s: seq<Byte>) {
    s != [] && AllDigits(s) && (s[0] == ZERO ==> |s| == 1)
  }

  /** Canonical digits, after a minus sign when the number is negative. */
  predicate Canonical(s: seq<Byte>) {
    if s != [] && s[0] == MINUS then CanonicalDigits(s[1..]) && s[1] != ZERO else CanonicalDigits(s)
  }

  function Parse(s: seq<Byte>): int
    requires Canonical(s)
  {
    var n: int := Value(if s[0] == MINUS then s[1..] else s);
    if s[0] == MINUS then -n else n
  }

  function Power(k: nat): (p: nat)
    ensures 0 < p
  {
    if k == 0 then 1 else 10 * Power(k - 1)
  }

  lemma {:induction false} ValueBounds(s: seq<Byte>)
    requires AllDigits(s)
    ensures Value(s) < Power(|s|)
    ensures s != [] && s[0] != ZERO ==> Power(|s| - 1) <= Value(s)
  {
    if s != [] {
      var init := s[..|s| - 1];
      ValueBounds(init);
      assert init != [] ==> init[0] == s[0];
      assert init == [] ==> Value(init) == 0;
    }
  }

  /** A text is canonical for one number only, and a number has one canonical text. */
  lemma {:induction false} DigitsUnique(a: seq<Byte>, b: seq<Byte>)
    requires AllDigits(a) && AllDigits(b) && |a| == |b| && Value(a) == Value(b)
    ensures a == b
  {
    if a != [] {
      DigitsUnique(a[..|a| - 1], b[..|b| - 1]);
      assert a == a[..|a| - 1] + [a[|a| - 1]] && b == b[..|b| - 1] + [b[|b| - 1]];
    }
  }

  lemma PowerGrows(j: nat, k: nat)
    requires j <= k
    ensures Power(j) <= Power(k)
  {
    if j < k {
      PowerGrows(j, k - 1);
    }
  }

  lemma DigitsLength(a: seq<Byte>, b: seq<Byte>)
    requires CanonicalDigits(a) && CanonicalDigits(b) && Value(a) <= Value(b)
    ensures |a| <= |b|
  {
    ValueBounds(a);
    ValueBounds(b);
    if a[0] != ZERO && |b| <= |a| - 1 {
      PowerGrows(|b|, |a| - 1);
    }
  }

  /** "-407" is the text of -407. */
  lemma TextOfNumber()
    ensures Canonical([45, 52, 48, 55]) && Parse([45, 52, 48, 55]) == -407
  {
    var text: seq<Byte>, s: seq<Byte> := [45, 52, 48, 55], [52, 48, 55];
    assert text[1..] == s;
    assert s[..2] == [52, 48] && s[..2][..1] == [52] && s[..2][..1][..0] == [];
    assert Value([]) == 0 && Value(s[..2][..1]) == 4 && Value(s[..2]) == 40 && Value(s) == 407;
  }

  lemma CanonicalUnique(a: seq<Byte>, b: seq<Byte>)
    requires Canonical(a) && Canonical(b) && Parse(a) == Parse(b)
    ensures a == b
  {
    var x, y := if a[0] == MINUS then a[1..] else a, if b[0] == MINUS then b[1..] else b;
    NotZero(x);
    NotZero(y);
    DigitsLength(x, y);
    DigitsLength(y, x);
    DigitsUnique(x, y);
    assert a[0] == MINUS ==> a == [MINUS] + x;
    assert b[0] == MINUS ==> b == [MINUS] + y;
  }

  lemma NotZero(s: seq<Byte>)
    requires CanonicalDigits(s)
    ensures s[0] != ZERO ==> 0 < Value(s)
  {
    ValueBounds(s);
  }

  // ---------------------------------------------------------------- the conversion

  /** The digits of a number, none for zero. */
  function Digits(n: nat): (s: seq<Byte>)
    ensures AllDigits(s)
  {
    if n == 0 then [] else Digits(n / 10) + [ZERO + n % 10]
  }

  lemma {:induction false} DigitsAre(n: nat)
    ensures Value(Digits(n)) == n
    ensures 0 < n ==> Digits(n) != [] && Digits(n)[0] != ZERO
    ensures forall k: nat | n < Power(k) :: |Digits(n)| <= k
  {
    if n != 0 {
      DigitsAre(n / 10);
      var s := Digits(n);
      assert s[..|s| - 1] == Digits(n / 10);
      if n / 10 != 0 {
        assert s[0] == Digits(n / 10)[0];
      }
      forall k: nat | n < Power(k) ensures |s| <= k {
        assert Power(k) == if k == 0 then 1 else 10 * Power(k - 1);
        assert n / 10 < Power(k - 1);
      }
    }
  }

  lemma TenDigits(n: nat)
    requires n <= 0x8000_0000
    ensures |Digits(n)| <= 10
    ensures |Digits(n)| == 10 <==> 1_000_000_000 <= n
  {
    DigitsAre(n);
    assert Power(3) == 1000;
    assert Power(6) == 1_000_000;
    assert Power(9) == 1_000_000_000 && Power(10) == 10_000_000_000;
    if 0 < n {
      ValueBounds(Digits(n));
    }
    if |Digits(n)| <= 9 {
      PowerGrows(|Digits(n)|, 9);
    }
  }

  lemma DigitsZero()
    ensures forall n :: Digits(n) == [] <==> n == 0
  {
  }

  /** One step of the loop: the remainder of a negative number is its last digit negated. */
  lemma LastDigit(i: int)
    requires i < 0
    ensures -9 <= Rem(i, 10) <= 0 && i < Quot(i, 10) <= 0
    ensures Digits(-i) == Digits(-Quot(i, 10)) + [ZERO - Rem(i, 10)]
  {
  }

  function TextOf(number: int): seq<Byte> {
    var size: nat := if number < 0 then -number else number;
    (if number < 0 then [MINUS] else []) + if size == 0 then [ZERO] else Digits(size)
  }

  lemma TextIs(number: int)
    ensures Canonical(TextOf(number)) && Parse(TextOf(number)) == number
  {
    hide Value, Digits;
    var size: nat := if number < 0 then -number else number;
    var digits := if size == 0 then [ZERO] else Digits(size);
    DigitsAre(size);
    ValueOfZero();
    assert number < 0 ==> TextOf(number)[1..] == digits;
    assert number >= 0 ==> TextOf(number) == digits;
  }

  lemma ValueOfZero()
    ensures Value([ZERO]) == 0
  {
    assert [ZERO][..0] == [];
  }

  /** itoa: works with the number negated when it is positive, so that the smallest one needs no
      special case; fills the twelve bytes from the end. */
  method Itoa(number: int, text: array<Byte>) returns (loc: nat)
    requires -0x8000_0000 <= number < 0x8000_0000 && text.Length == 12
    modifies text
    ensures loc < 11 && text[11] == 0
    ensures Canonical(text[loc..11]) && Parse(text[loc..11]) == number
    ensures loc == 0 <==> number <= -1_000_000_000
    ensures text[..loc] == old(text[..loc])
  {
    hide Digits, Quot, Rem, Canonical, Value, Parse;
    ghost var size := if number < 0 then -number else number;
    TenDigits(size);
    DigitsZero();
    loc := 11;
    text[11] := 0;
    var neg := true;
    var i := number;
    if i >= 0 {
      neg := false;
      i := -i;
    }
    while i != 0
      invariant i <= 0 && 0 <= loc <= 11 && text[11] == 0
      invariant Digits(size) == Digits(-i) + text[loc..11]
      invariant text[..loc] == old(text[..loc])
      decreases -i
    {
      LastDigit(i);
      ghost var done, rest := text[loc..11], Digits(-Quot(i, 10));
      assert Digits(size) == rest + ([ZERO - Rem(i, 10)] + done);
      loc := loc - 1;
      text[loc] := ZERO - Rem(i, 10);
      assert text[loc..11] == [ZERO - Rem(i, 10)] + done;
      i := Quot(i, 10);
    }
    ghost var digits := text[loc..11];
    assert digits == Digits(size);
    if loc == 11 {
      loc := loc - 1;
      text[loc] := ZERO;
    }
    if neg {
      loc := loc - 1;
      text[loc] := MINUS;
    }
    assert text[loc..11] == TextOf(number);
    TextIs(number);
  }
}
