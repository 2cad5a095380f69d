/** Zero-terminated strings: the text of a buffer, bounded copying, comparison without regard to case. */
module CStrings {
  import opened Bytes

  /** The bytes of a buffer before the first zero. */
  function CText(s: seq<Byte>): (t: seq<Byte>)
    ensures |t| <= |s| && t == s[..|t|] && 0 !in t
    ensures |t| < |s| ==> s[|t|] == 0
  {
    if s == [] || s[0] == 0 then [] else [s[0]] + CText(s[1..])
  }

  /** A buffer's text is the only zero-free prefix that a zero follows. */
  lemma {:induction false} CTextIs(s: seq<Byte>, n: nat)
    requires n <= |s| && 0 !in s[..n] && (n < |s| ==> s[n] == 0)
    ensures CText(s) == s[..n]
  {
    if 0 < n {
      assert s[..n][0] == s[0] && s[1..][..n - 1] == s[..n][1..];
      CTextIs(s[1..], n - 1);
    }
  }

  lemma {:induction false} CTextReaches(s: seq<Byte>, i: nat)
    requires i < |s| && 0 !in s[..i] && s[i] != 0
    ensures i < |CText(s)|
  {
    if 0 < i {
      assert s[..i][0] == s[0] && s[1..][..i - 1] == s[..i][1..];
      CTextReaches(s[1..], i - 1);
    }
  }

  /** strlen. */
  method Strlen(s: seq<Byte>) returns (n: nat)
    requires 0 in s
    ensures n == |CText(s)|
  {
    n := 0;
    assert s[..|s|] == s;
    while s[n] != 0
      invariant 0 <= n < |s| && 0 !in s[..n]
      decreases |s| - n
    {
      n := n + 1;
      assert s[..|s|] == s;
    }
    CTextIs(s, n);
  }

  function ToLower(c: Byte): Byte {
    if 65 <= c <= 90 then c + 32 else c
  }

  /** The same character, or a letter from A to Z and the one 32 places behind it. */
  predicate SameLetter(a: Byte, b: Byte) {
    a == b || (65 <= a <= 90 && b == a + 32) || (65 <= b <= 90 && a == b + 32)
  }

  /** What the comparison of lower-cased characters tells apart. */
  lemma ToLowerIff(a: Byte, b: Byte)
    ensures ToLower(a) == ToLower(b) <==> SameLetter(a, b)
  {
  }

  /** Texts of one length that agree without regard to case in every place. */
  predicate SameText(s: seq<Byte>, t: seq<Byte>) {
    |s| == |t| && forall i: nat | i < |s| :: SameLetter(s[i], t[i])
  }

  /** The part of a string that a comparison of at most n characters looks at. */
  function Within(s: seq<Byte>, n: nat): (t: seq<Byte>)
    ensures |t| <= n && 0 !in t
  {
    CText(Clipped(s, n))
  }

  /** istrncmp of two strings that are terminated, or at least n characters long. */
  method Istrncmp(s1: seq<Byte>, s2: seq<Byte>, n: nat) returns (res: int)
    requires (0 in s1 || n <= |s1|) && (0 in s2 || n <= |s2|)
    ensures res == 0 <==> SameText(Within(s1, n), Within(s2, n))
    ensures res != 0 ==> exists k: nat ::
              k < |s1| && k < |s2| && res == s1[k] as int - s2[k] as int && !SameLetter(s1[k], s2[k])
              && SameText(s1[..k], s2[..k])
  {
    hide Within, SameLetter;
    var i := 0;
    while i < n
      invariant 0 <= i <= n && i <= |s1| && i <= |s2|
      invariant 0 !in s1[..i] && 0 !in s2[..i]
      invariant SameText(s1[..i], s2[..i])
    {
      FirstZeroIfAny(s1, i, n);
      FirstZeroIfAny(s2, i, n);
      var u1, u2 := s1[i], s2[i];
      ToLowerIff(u1, u2);
      if u1 != u2 && ToLower(u1) != ToLower(u2) {
        DifferAt(s1, s2, i, n);
        return u1 as int - u2 as int;
      }
      OnlyZeroIsZero(u1, u2);
      if u1 == 0 {
        WithinIs(s1, i, n);
        WithinIs(s2, i, n);
        return 0;
      }
      assert s1[..i + 1] == s1[..i] + [u1] && s2[..i + 1] == s2[..i] + [u2];
      i := i + 1;
    }
    WithinIs(s1, n, n);
    WithinIs(s2, n, n);
    res := 0;
  }

  lemma OnlyZeroIsZero(a: Byte, b: Byte)
    ensures a == b ==> SameLetter(a, b)
    ensures SameLetter(a, b) ==> (a == 0 <==> b == 0)
  {
  }

  lemma WithinIs(s: seq<Byte>, k: nat, n: nat)
    requires k <= n && k <= |s| && 0 !in s[..k] && (k < n && k < |s| ==> s[k] == 0)
    ensures Within(s, n) == s[..k]
  {
    var t := Clipped(s, n);
    assert t[..k] == s[..k];
    CTextIs(t, k);
  }

  /** A difference at position i shows in the texts, whichever of the two ends there. */
  lemma DifferAt(s1: seq<Byte>, s2: seq<Byte>, i: nat, n: nat)
    requires i < n && i < |s1| && i < |s2| && 0 !in s1[..i] && 0 !in s2[..i] && !SameLetter(s1[i], s2[i])
    ensures !SameText(Within(s1, n), Within(s2, n))
  {
    hide Within, SameLetter;
    Reaches(s1, i, n);
    Reaches(s2, i, n);
    OnlyZeroIsZero(s1[i], s2[i]);
  }

  lemma Reaches(s: seq<Byte>, i: nat, n: nat)
    requires i < n && i < |s| && 0 !in s[..i]
    ensures if s[i] == 0 then |Within(s, n)| == i else i < |Within(s, n)| && Within(s, n)[i] == s[i]
  {
    var t := Clipped(s, n);
    assert t[..i] == s[..i];
    if s[i] == 0 {
      CTextIs(t, i);
    } else {
      CTextReaches(t, i);
    }
  }

  /** strncpy of this system: always terminates, copies at most count - 1 characters. */
  method Strncpy(dest: array<Byte>, at: nat, src: seq<Byte>, count: nat)
    requires 0 < count && at + count <= dest.Length && (0 in src || count - 1 <= |src|)
    modifies dest
    ensures dest[..] == Stored(old(dest[..]), at, Within(src, count - 1) + [0])
  {
    hide Stored, Within;
    var i := 0;
    StoreNothing(dest[..], at, src[..0]);
    FirstZeroIfAny(src, 0, count - 1);
    while i < count - 1 && src[i] != 0
      invariant 0 <= i <= count - 1 && i <= |src| && 0 !in src[..i]
      invariant i < count - 1 ==> i < |src|
      invariant dest[..] == Stored(old(dest[..]), at, src[..i])
    {
      StoreNext(old(dest[..]), at, src[..i], src[i]);
      assert src[..i + 1] == src[..i] + [src[i]];
      dest[at + i] := src[i];
      i := i + 1;
      FirstZeroIfAny(src, i, count - 1);
    }
    StoreNext(old(dest[..]), at, src[..i], 0);
    dest[at + i] := 0;
    WithinIs(src, i, count - 1);
  }

  lemma FirstZeroIfAny(s: seq<Byte>, i: nat, n: nat)
    requires i <= |s| && (0 in s || n <= |s|) && 0 !in s[..i]
    ensures i < n ==> i < |s|
  {
    assert s[..|s|] == s;
  }
}
