/** Splitting a text at delimiters: the maximal runs of other characters. */
module Tokens {
  import opened Bytes

  /** How many characters at the front are delimiters, or are not. */
  function Span(s: seq<Byte>, delimiters: seq<Byte>, inside: bool): (n: nat)
    ensures n <= |s|
    ensures forall i | 0 <= i < n :: s[i] in delimiters <==> inside
    ensures n < |s| ==> (s[n] in delimiters <==> !inside)
  {
    if s == [] || (s[0] in delimiters) != inside then 0 else 1 + Span(s[1..], delimiters, inside)
  }

  lemma {:induction false} SpanIs(s: seq<Byte>, delimiters: seq<Byte>, inside: bool, n: nat)
    requires n <= |s| && (forall i: nat | i < n :: s[i] in delimiters <==> inside)
    requires n < |s| ==> (s[n] in delimiters <==> !inside)
    ensures Span(s, delimiters, inside) == n
  {
    if 0 < n {
      SpanIs(s[1..], delimiters, inside, n - 1);
    }
  }

  function Trimmed(s: seq<Byte>, delimiters: seq<Byte>): (t: seq<Byte>)
    ensures |t| <= |s| && (t != [] ==> t[0] !in delimiters)
  {
    s[Span(s, delimiters, true)..]
  }

  /** What is left behind the first token and the delimiter that ends it. */
  function Behind(t: seq<Byte>, delimiters: seq<Byte>): (rest: seq<Byte>)
    ensures t != [] ==> |rest| < |t|
    ensures |rest| <= |t|
  {
    var n := Span(t, delimiters, false);
    t[if n < |t| then n + 1 else n..]
  }

  function Tokenized(s: seq<Byte>, delimiters: seq<Byte>): seq<seq<Byte>>
    decreases |s|
  {
    var t := Trimmed(s, delimiters);
    if t == [] then [] else [t[..Span(t, delimiters, false)]] + Tokenized(Behind(t, delimiters), delimiters)
  }

  // ---------------------------------------------------------------- what the tokens are

  predicate Token(t: seq<Byte>, delimiters: seq<Byte>) {
    t != [] && forall c <- t :: c !in delimiters
  }

  predicate Gap(g: seq<Byte>, delimiters: seq<Byte>) {
    forall c <- g :: c in delimiters
  }

  /** A gap, then each token followed by its own gap, which is not empty except behind the last. */
  function Spread(front: seq<Byte>, tokens: seq<seq<Byte>>, gaps: seq<seq<Byte>>): seq<Byte>
    requires |gaps| == |tokens|
    decreases |tokens|
  {
    if tokens == [] then front else front + tokens[0] + Spread(gaps[0], tokens[1..], gaps[1..])
  }

  predicate WellSpread(front: seq<Byte>, tokens: seq<seq<Byte>>, gaps: seq<seq<Byte>>, delimiters: seq<Byte>) {
    && |gaps| == |tokens| && Gap(front, delimiters)
    && (forall i | 0 <= i < |tokens| :: Token(tokens[i], delimiters) && Gap(gaps[i], delimiters))
    && (forall i | 0 <= i < |tokens| - 1 :: gaps[i] != [])
  }

  lemma GapThenText(front: seq<Byte>, rest: seq<Byte>, delimiters: seq<Byte>)
    requires Gap(front, delimiters)
    ensures Trimmed(front + rest, delimiters) == Trimmed(rest, delimiters)
  {
    var n := Span(rest, delimiters, true);
    forall i: nat | i < |front| + n ensures (front + rest)[i] in delimiters {
      if i < |front| {
        assert front[i] in front;
      } else {
        assert rest[i - |front|] in delimiters;
      }
    }
    SpanIs(front + rest, delimiters, true, |front| + n);
    assert (front + rest)[|front| + n..] == rest[n..];
  }

  lemma TokenThenText(token: seq<Byte>, rest: seq<Byte>, delimiters: seq<Byte>)
    requires Token(token, delimiters) && (rest != [] ==> rest[0] in delimiters)
    ensures Trimmed(token + rest, delimiters) == token + rest
    ensures Span(token + rest, delimiters, false) == |token| && (token + rest)[..|token|] == token
    ensures Behind(token + rest, delimiters) == if rest == [] then [] else rest[1..]
  {
    forall i: nat | i < |token| ensures (token + rest)[i] !in delimiters {
      assert token[i] in token;
    }
    SpanIs(token + rest, delimiters, true, 0);
    SpanIs(token + rest, delimiters, false, |token|);
  }

  lemma SameAfterGapStart(rest: seq<Byte>, delimiters: seq<Byte>)
    requires rest != [] && rest[0] in delimiters
    ensures Tokenized(rest, delimiters) == Tokenized(rest[1..], delimiters)
  {
    assert rest == rest[..1] + rest[1..];
    assert forall c <- rest[..1] :: c == rest[0];
    GapThenText(rest[..1], rest[1..], delimiters);
  }

  lemma TokenizedGap(front: seq<Byte>, delimiters: seq<Byte>)
    requires Gap(front, delimiters)
    ensures Tokenized(front, delimiters) == []
  {
    forall i: nat | i < |front| ensures front[i] in delimiters {
      assert front[i] in front;
    }
    SpanIs(front, delimiters, true, |front|);
  }

  /** Tokens set apart by any delimiters whatsoever are found again. */
  lemma {:induction false} SpreadTokenized(front: seq<Byte>, tokens: seq<seq<Byte>>, gaps: seq<seq<Byte>>,
      delimiters: seq<Byte>)
    requires WellSpread(front, tokens, gaps, delimiters)
    ensures Tokenized(Spread(front, tokens, gaps), delimiters) == tokens
    decreases |tokens|
  {
    hide Trimmed, Behind, Span;
    if tokens == [] {
      TokenizedGap(front, delimiters);
    } else {
      var rest := Spread(gaps[0], tokens[1..], gaps[1..]);
      var s := tokens[0] + rest;
      assert Spread(front, tokens, gaps) == front + s;
      SpreadStart(gaps[0], tokens[1..], gaps[1..], delimiters);
      GapThenText(front, s, delimiters);
      TokenThenText(tokens[0], rest, delimiters);
      SpreadTokenized(gaps[0], tokens[1..], gaps[1..], delimiters);
      if rest != [] {
        SameAfterGapStart(rest, delimiters);
      }
    }
  }

  lemma SpreadStart(front: seq<Byte>, tokens: seq<seq<Byte>>, gaps: seq<seq<Byte>>, delimiters: seq<Byte>)
    requires WellSpread(front, tokens, gaps, delimiters) && (tokens == [] || front != [])
    ensures Spread(front, tokens, gaps) != [] ==> Spread(front, tokens, gaps)[0] in delimiters
  {
    if front != [] {
      assert front[0] in front;
    }
  }

  lemma SpreadFront(d: seq<Byte>, front: seq<Byte>, tokens: seq<seq<Byte>>, gaps: seq<seq<Byte>>)
    requires |gaps| == |tokens|
    ensures Spread(d + front, tokens, gaps) == d + Spread(front, tokens, gaps)
  {
    if tokens != [] {
      assert d + front + tokens[0] + Spread(gaps[0], tokens[1..], gaps[1..])
          == d + (front + tokens[0] + Spread(gaps[0], tokens[1..], gaps[1..]));
    }
  }

  /** A token with the delimiter behind it, put in front of a text that is spread already. */
  lemma SpreadMore(front: seq<Byte>, token: seq<Byte>, d: seq<Byte>, inner: seq<Byte>,
                   tokens: seq<seq<Byte>>, gaps: seq<seq<Byte>>, delimiters: seq<Byte>)
    requires WellSpread(inner, tokens, gaps, delimiters)
    requires Gap(front, delimiters) && Token(token, delimiters) && Gap(d, delimiters) && (tokens != [] ==> d != [])
    ensures WellSpread(front, [token] + tokens, [d + inner] + gaps, delimiters)
    ensures Spread(front, [token] + tokens, [d + inner] + gaps) == front + (token + (d + Spread(inner, tokens, gaps)))
  {
    SpreadFront(d, inner, tokens, gaps);
    assert ([token] + tokens)[1..] == tokens && ([d + inner] + gaps)[1..] == gaps;
    assert front + token + (d + Spread(inner, tokens, gaps)) == front + (token + (d + Spread(inner, tokens, gaps)));
  }

  lemma Parts(t: seq<Byte>, delimiters: seq<Byte>) returns (d: seq<Byte>)
    requires t != [] && t[0] !in delimiters
    ensures var n := Span(t, delimiters, false);
            t == t[..n] + (d + Behind(t, delimiters)) && Token(t[..n], delimiters) && Gap(d, delimiters)
            && (Behind(t, delimiters) != [] ==> d != [])
  {
    var n := Span(t, delimiters, false);
    d := t[n..if n < |t| then n + 1 else n];
    assert n < |t| ==> d == [t[n]];
  }

  /** And every text is its tokens, set apart by delimiters. */
  lemma {:induction false} TokenizedSpread(s: seq<Byte>, delimiters: seq<Byte>)
    returns (front: seq<Byte>, gaps: seq<seq<Byte>>)
    ensures |gaps| == |Tokenized(s, delimiters)|
    ensures WellSpread(front, Tokenized(s, delimiters), gaps, delimiters)
    ensures s == Spread(front, Tokenized(s, delimiters), gaps)
    decreases |s|
  {
    hide Behind, Spread, WellSpread, Gap, Token;
    var t := Trimmed(s, delimiters);
    front, gaps := s[..Span(s, delimiters, true)], [];
    FrontIsGap(s, delimiters);
    assert s == front + t;
    if t == [] {
      SpreadNothing(front, delimiters);
    } else {
      var token, rest := t[..Span(t, delimiters, false)], Behind(t, delimiters);
      var d := Parts(t, delimiters);
      var inner, others := TokenizedSpread(rest, delimiters);
      assert Tokenized(rest, delimiters) != [] ==> rest != [];
      SpreadMore(front, token, d, inner, Tokenized(rest, delimiters), others, delimiters);
      gaps := [d + inner] + others;
    }
  }

  lemma FrontIsGap(s: seq<Byte>, delimiters: seq<Byte>)
    ensures Gap(s[..Span(s, delimiters, true)], delimiters)
  {
  }

  lemma SpreadNothing(front: seq<Byte>, delimiters: seq<Byte>)
    requires Gap(front, delimiters)
    ensures Spread(front, [], []) == front && WellSpread(front, [], [], delimiters)
  {
  }
}
