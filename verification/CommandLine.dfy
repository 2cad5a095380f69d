/** Command lines: the tokenizer that remembers its place, and the list of arguments. */
module CommandLine {
  import opened Machine
  import opened Bytes
  import opened CStrings
  import opened Tokens
  import opened StringLists

  const COMMAND_SIZE := 1025
  const ARGUMENT_SIZE := 512
  const BLANK: Byte := 0x20

  // ---------------------------------------------------------------- the tokenizer

  /** Position of a character among the delimiters, or their number. */
  method DelimiterIndex(c: Byte, delimiters: seq<Byte>) returns (i: nat)
    ensures i <= |delimiters| && (i == |delimiters| <==> c !in delimiters)
  {
    i := 0;
    while i < |delimiters|
      invariant 0 <= i <= |delimiters| && c !in delimiters[..i]
    {
      if c == delimiters[i] {
        return;
      }
      assert delimiters[..i + 1] == delimiters[..i] + [delimiters[i]];
      i := i + 1;
    }
    assert delimiters[..|delimiters|] == delimiters;
  }

  /** The string at a position of a buffer. */
  function StringAt(b: seq<Byte>, p: nat): seq<Byte> {
    if p <= |b| then CText(b[p..]) else []
  }

  ghost predicate Ended(b: seq<Byte>, p: nat) {
    p <= |b| && 0 in b[p..]
  }

  lemma StringBytes(b: seq<Byte>, p: nat)
    requires Ended(b, p)
    ensures p + |StringAt(b, p)| < |b| && b[p + |StringAt(b, p)|] == 0
    ensures forall k: nat | k < |StringAt(b, p)| :: b[p + k] == StringAt(b, p)[k] != 0
  {
    var s := StringAt(b, p);
    assert b[p..][..|b[p..]|] == b[p..];
    forall k: nat | k < |s| ensures b[p + k] == s[k] != 0 {
      assert s[k] in s;
    }
  }

  lemma StringByte(b: seq<Byte>, p: nat, k: nat)
    requires Ended(b, p)
    ensures k < |StringAt(b, p)| ==> p + k < |b| && b[p + k] != 0
  {
    hide StringAt;
    StringBytes(b, p);
    if k < |StringAt(b, p)| {
      assert b[p + k] == StringAt(b, p)[k];
    }
  }

  lemma StringIs(b: seq<Byte>, p: nat, s: seq<Byte>)
    requires p + |s| < |b| && b[p..p + |s|] == s && 0 !in s && b[p + |s|] == 0
    ensures StringAt(b, p) == s && Ended(b, p)
  {
    assert b[p..][..|s|] == s;
    assert b[p..][|s|] == 0;
    CTextIs(b[p..], |s|);
  }

  /** A zero written into a string, or none at its end, makes two strings of it. */
  lemma Cut(b: seq<Byte>, start: nat, n: nat, after: seq<Byte>)
    requires Ended(b, start) && n <= |StringAt(b, start)|
    requires start + n < |b| && after == if n < |StringAt(b, start)| then b[start + n := 0] else b
    ensures var t := StringAt(b, start);
            var m := if n < |t| then n + 1 else n;
            && Ended(after, start) && StringAt(after, start) == t[..n]
            && Ended(after, start + m) && StringAt(after, start + m) == t[m..]
  {
    hide StringAt, Ended;
    CutFront(b, start, n, after);
    var m := if n < |StringAt(b, start)| then n + 1 else n;
    CutBack(b, start, m, after);
  }

  lemma CutFront(b: seq<Byte>, start: nat, n: nat, after: seq<Byte>)
    requires Ended(b, start) && n <= |StringAt(b, start)|
    requires start + n < |b| && after == if n < |StringAt(b, start)| then b[start + n := 0] else b
    ensures Ended(after, start) && StringAt(after, start) == StringAt(b, start)[..n]
  {
    hide StringAt, Ended;
    var t := StringAt(b, start);
    StringBytes(b, start);
    ZeroFree(b, start);
    assert after[start..start + n] == t[..n];
    StringIs(after, start, t[..n]);
  }

  lemma CutBack(b: seq<Byte>, start: nat, m: nat, after: seq<Byte>)
    requires Ended(b, start) && m <= |StringAt(b, start)| && |after| == |b|
    requires forall k | start + m <= k < |b| :: after[k] == b[k]
    ensures Ended(after, start + m) && StringAt(after, start + m) == StringAt(b, start)[m..]
  {
    hide StringAt, Ended;
    var t := StringAt(b, start);
    StringBytes(b, start);
    ZeroFree(b, start);
    assert after[start + m..start + m + |t[m..]|] == t[m..];
    StringIs(after, start + m, t[m..]);
  }

  lemma ZeroFree(b: seq<Byte>, p: nat)
    ensures 0 !in StringAt(b, p)
  {
  }

  /** The end of a string is the end of each of its ends. */
  lemma Suffix(b: seq<Byte>, p: nat, k: nat)
    requires Ended(b, p) && k <= |StringAt(b, p)|
    ensures Ended(b, p + k) && StringAt(b, p + k) == StringAt(b, p)[k..]
  {
    hide StringAt, Ended;
    var t := StringAt(b, p);
    StringBytes(b, p);
    assert b[p + k..p + k + |t[k..]|] == t[k..];
    assert 0 !in t by { ZeroFree(b, p); }
    StringIs(b, p + k, t[k..]);
  }

  /** The first loop of strtok: past the delimiters in front. */
  method SkipDelimiters(b: array<Byte>, p: nat, delimiters: seq<Byte>) returns (start: nat)
    requires 0 !in delimiters && Ended(b[..], p)
    ensures start == p + |StringAt(b[..], p)| - |Trimmed(StringAt(b[..], p), delimiters)|
    ensures Ended(b[..], start) && StringAt(b[..], start) == Trimmed(StringAt(b[..], p), delimiters)
  {
    hide StringAt, Span, Ended;
    ghost var s := StringAt(b[..], p);
    StringBytes(b[..], p);
    start := p;
    while true
      invariant p <= start <= p + |s| && forall k: nat | k < start - p :: s[k] in delimiters
      decreases p + |s| - start
    {
      assert start < p + |s| ==> s[start - p] == b[..][p + (start - p)];
      var i := DelimiterIndex(b[start], delimiters);
      if i == |delimiters| {
        break;
      }
      start := start + 1;
    }
    SpanIs(s, delimiters, true, start - p);
    Suffix(b[..], p, start - p);
  }

  /** The second loop: to the delimiter behind the token, which becomes its end, or to the end of the string. */
  method CutToken(b: array<Byte>, start: nat, delimiters: seq<Byte>) returns (sp: nat)
    requires 0 !in delimiters && Ended(b[..], start)
    requires StringAt(b[..], start) != [] && StringAt(b[..], start)[0] !in delimiters
    modifies b
    ensures var t := old(StringAt(b[..], start));
            && Ended(b[..], start) && StringAt(b[..], start) == t[..Span(t, delimiters, false)]
            && Ended(b[..], sp) && StringAt(b[..], sp) == Behind(t, delimiters)
            && forall k | 0 <= k < b.Length && k != start + Span(t, delimiters, false) :: b[k] == old(b[k])
  {
    hide StringAt, Span, Ended;
    ghost var t := StringAt(b[..], start);
    StringBytes(b[..], start);
    sp := start;
    while b[sp] != 0
      invariant start <= sp <= start + |t| && b[..] == old(b[..])
      invariant forall k: nat | k < sp - start :: t[k] !in delimiters
      decreases start + |t| - sp
    {
      assert sp < start + |t| ==> t[sp - start] == b[..][start + (sp - start)];
      var i := DelimiterIndex(b[sp], delimiters);
      if i < |delimiters| {
        SpanIs(t, delimiters, false, sp - start);
        b[sp] := 0;
        Cut(old(b[..]), start, sp - start, b[..]);
        sp := sp + 1;
        return;
      }
      sp := sp + 1;
    }
    StringByte(b[..], start, sp - start);
    SpanIs(t, delimiters, false, sp - start);
    Cut(old(b[..]), start, sp - start, b[..]);
  }

  class Tokenizer {
    // The saved position `sp`: a place in a buffer, or none.
    var buffer: array?<Byte>
    var pos: nat

    constructor ()
      ensures buffer == null
    {
      buffer := null;
      pos := 0;
    }

    /** strtok: goes on from the saved position when there is one, whatever string is given. */
    method Strtok(str: array?<Byte>, delimiters: seq<Byte>) returns (token: Option<nat>)
      requires 0 !in delimiters
      requires buffer != null ==> Ended(buffer[..], pos)
      requires buffer == null && str != null ==> Ended(str[..], 0)
      modifies this, if buffer != null then buffer else str
      ensures old(buffer) == null && str == null ==> token == None && buffer == null
      ensures old(buffer) != null ==> Took(old(buffer[..]), old(pos), delimiters, token, buffer, pos, old(buffer)[..])
      ensures old(buffer) == null && str != null ==> Took(old(str[..]), 0, delimiters, token, buffer, pos, str[..])
      ensures buffer != null ==> buffer == if old(buffer) != null then old(buffer) else str
    {
      hide Trimmed, Behind, Span, StringAt, Ended;
      if str == null && buffer == null {
        return None;
      }
      if str != null && buffer == null {
        buffer := str;
        pos := 0;
      }
      var start := SkipDelimiters(buffer, pos, delimiters);
      EmptyIff(buffer[..], start);
      if buffer[start] == 0 {
        buffer := null;
        return None;
      }
      pos := CutToken(buffer, start, delimiters);
      token := Some(start);
    }
  }

  lemma EmptyIff(b: seq<Byte>, p: nat)
    requires Ended(b, p)
    ensures p < |b| && (b[p] == 0 <==> StringAt(b, p) == [])
  {
    StringBytes(b, p);
  }

  /** What a call of strtok does, given the buffer and position it works from: the next run of other
      characters becomes a string of its own, and the place behind it is kept; only the character behind
      the run is written, so that earlier tokens stay as they are.  At the end of the text nothing is
      found and no place is kept. */
  ghost predicate Took(b: seq<Byte>, p: nat, delimiters: seq<Byte>, token: Option<nat>, sp: array?<Byte>, pos: nat,
      after: seq<Byte>) {
    && Ended(b, p)
    && var s := StringAt(b, p);
       var t := Trimmed(s, delimiters);
       if t == [] then token == None && sp == null && after == b
       else
         && token == Some(p + |s| - |t|) && sp != null
         && Ended(after, token.value) && StringAt(after, token.value) == t[..Span(t, delimiters, false)]
         && Ended(after, pos) && StringAt(after, pos) == Behind(t, delimiters)
         && |after| == |b|
         && forall k | 0 <= k < |b| && k != token.value + Span(t, delimiters, false) :: after[k] == b[k]
  }

  // ---------------------------------------------------------------- the list of arguments

  /** One argument: 512 characters and a link. */
  type Argument = Node<()>

  /** An argument's text is a token cut to 511 characters. */
  function Shortened(token: seq<Byte>): (text: seq<Byte>)
    ensures |text| < ARGUMENT_SIZE
  {
    Clipped(token, ARGUMENT_SIZE - 1)
  }

  function ShortenedAll(tokens: seq<seq<Byte>>): (texts: seq<seq<Byte>>)
    ensures |texts| == |tokens|
  {
    seq(|tokens|, i requires 0 <= i < |tokens| => Shortened(tokens[i]))
  }

  lemma WithinIsClipped(s: seq<Byte>, n: nat)
    ensures Within(s, n) == Clipped(CText(s), n)
  {
    var t := CText(s);
    assert |t| < |s| ==> s[|t|] == 0;
    assert s[..|t|] == t;
    if n < |t| {
      assert s[..n] == t[..n];
    }
    WithinIs(s, |Clipped(t, n)|, n);
  }

  /** A new argument, zeroed, and strncpy of a token into it. */
  method NewArgument(b: array<Byte>, start: nat) returns (node: Argument)
    requires Ended(b[..], start)
    ensures fresh(node) && fresh(node.text) && node.next == null
    ensures HasText(node, ARGUMENT_SIZE, Shortened(StringAt(b[..], start)))
  {
    hide Within, CText, Stored;
    var text := new Byte[ARGUMENT_SIZE](_ => 0);
    ghost var zeros := text[..];
    assert zeros == ZeroBytes(ARGUMENT_SIZE);
    ghost var src := b[start..];
    assert b[..][start..] == src;
    Strncpy(text, 0, b[start..], ARGUMENT_SIZE);
    WithinIsClipped(src, ARGUMENT_SIZE - 1);
    StoredInZeros(zeros, Within(src, ARGUMENT_SIZE - 1));
    node := new Node((), text);
  }

  /** What the parser makes of a command when `room` more allocations succeed. */
  function Kept(command: seq<Byte>, room: nat): seq<seq<Byte>> {
    Clipped(Tokenized(Within(command, COMMAND_SIZE - 1), [BLANK]), room)
  }

  /** The command of up to 1024 characters in which these words stand, however far apart: the first `room` of
      the words are kept, and of each the first 511 characters. */
  lemma KeptIs(front: seq<Byte>, words: seq<seq<Byte>>, gaps: seq<seq<Byte>>, behind: seq<Byte>, room: nat)
    requires WellSpread(front, words, gaps, [32]) && 0 !in Spread(front, words, gaps)
    requires |Spread(front, words, gaps)| <= 1024
    ensures ShortenedAll(Kept(Spread(front, words, gaps) + [0] + behind, room)) ==
            seq(if room < |words| then room else |words|, i requires 0 <= i < |words| =>
              if 511 < |words[i]| then words[i][..511] else words[i])
  {
    var s := Spread(front, words, gaps);
    var command := s + [0] + behind;
    assert command[..|s|] == s;
    hide Tokenized, Spread, Within;
    WithinIs(command, |s|, COMMAND_SIZE - 1);
    SpreadTokenized(front, words, gaps, [32]);
  }

  lemma NextToken(s: seq<Byte>, delimiters: seq<Byte>)
    ensures var t := Trimmed(s, delimiters);
            Tokenized(s, delimiters) == if t == [] then []
              else [t[..Span(t, delimiters, false)]] + Tokenized(Behind(t, delimiters), delimiters)
  {
  }

  /**
   pandora_parse_command: one argument per token, cut to 511 characters, as long as allocations
   succeed.  The tokenizer is ready for the next command if and only if none was refused.
   */
  method ParseCommand(tokenizer: Tokenizer, command: seq<Byte>, max: int, room: nat)
    returns (root: Node?<()>, ghost nodes: seq<Argument>)
    requires tokenizer.buffer == null && (0 in command || COMMAND_SIZE - 1 <= |command|)
    modifies tokenizer
    ensures Linked(root, nodes) && (forall n <- nodes :: fresh(n) && fresh(n.text))
    ensures if COMMAND_SIZE <= max then nodes == [] && tokenizer.buffer == null
            else
              && Texts(nodes, ARGUMENT_SIZE, ShortenedAll(Kept(command, room)))
              && (tokenizer.buffer == null <==> |Tokenized(Within(command, COMMAND_SIZE - 1), [BLANK])| <= room)
  {
    hide Tokenized, Within, StringAt, Ended, HasText, Texts, Took, Linked, Clipped;
    if COMMAND_SIZE <= max {
      LinkedNone<()>();
      return null, [];
    }
    var scommand := new Byte[COMMAND_SIZE];
    ghost var all := Tokenized(Within(command, COMMAND_SIZE - 1), [BLANK]);
    CopyCommand(scommand, command);
    ghost var b := scommand[..];
    var token := tokenizer.Strtok(scommand, [BLANK]);
    AheadOf(tokenizer, scommand, b, 0, token, all, []);
    root, nodes := null, [];
    LinkedNone<()>();
    NoTexts<()>(ARGUMENT_SIZE);
    if token.None? || room == 0 {
      EndOfCommand(tokenizer, scommand, token, all, [], room);
      return;
    }
    root := NewArgument(scommand, token.value);
    nodes := ParseRest(tokenizer, scommand, root, token.value, room - 1, all);
  }

  /** The loop of pandora_parse_command, with the first argument in place. */
  method ParseRest(tokenizer: Tokenizer, scommand: array<Byte>, root: Argument, first: nat, room: nat,
      ghost all: seq<seq<Byte>>)
    returns (ghost nodes: seq<Argument>)
    requires Ahead(tokenizer, scommand, Some(first), all, [])
    requires root.next == null && root.text != scommand
             && HasText(root, ARGUMENT_SIZE, Shortened(StringAt(scommand[..], first)))
    modifies tokenizer, scommand, root
    ensures Linked(root, nodes) && (forall n <- nodes :: n == root || (fresh(n) && fresh(n.text)))
    ensures Texts(nodes, ARGUMENT_SIZE, ShortenedAll(Clipped(all, room + 1)))
            && (tokenizer.buffer == null <==> |all| <= room + 1)
  {
    hide Tokenized, StringAt, Ended, HasText, Texts, Took, Linked, Clipped, Ahead;
    ghost var texts := [StringAt(scommand[..], first)];
    nodes := [root];
    FirstAhead(tokenizer, scommand, first, all);
    LinkedOne(root);
    OneText(root, ARGUMENT_SIZE, Shortened(texts[0]));
    assert ShortenedAll(texts) == [Shortened(texts[0])];
    var left, current := room, root;
    ghost var b, p := scommand[..], tokenizer.pos;
    var token := tokenizer.Strtok(null, [BLANK]);
    AheadOf(tokenizer, scommand, b, p, token, all, texts);
    while token != None
      invariant Linked(root, nodes) && nodes != [] && current == nodes[|nodes| - 1] && current in nodes
      invariant forall n <- nodes :: n.text != scommand && (n == root || (fresh(n) && fresh(n.text)))
      invariant Texts(nodes, ARGUMENT_SIZE, ShortenedAll(texts)) && |texts| + left == room + 1 && 0 <= left
      invariant Ahead(tokenizer, scommand, token, all, texts)
      decreases left, if token.None? then 0 else 1
    {
      if left == 0 {
        break;
      }
      left := left - 1;
      TokenAhead(tokenizer, scommand, token.value, all, texts);
      var newCommand := NewArgument(scommand, token.value);
      Append(root, nodes, current, newCommand);
      ghost var found := StringAt(scommand[..], token.value);
      OneMoreText(nodes, ARGUMENT_SIZE, ShortenedAll(texts), newCommand, Shortened(found));
      assert ShortenedAll(texts + [found]) == ShortenedAll(texts) + [Shortened(found)];
      nodes, texts := nodes + [newCommand], texts + [found];
      current := newCommand;
      b, p := scommand[..], tokenizer.pos;
      token := tokenizer.Strtok(null, [BLANK]);
      AheadOf(tokenizer, scommand, b, p, token, all, texts);
    }
    EndOfCommand(tokenizer, scommand, token, all, texts, room + 1);
  }

  lemma TokenAhead(tokenizer: Tokenizer, b: array<Byte>, token: nat, all: seq<seq<Byte>>, texts: seq<seq<Byte>>)
    requires Ahead(tokenizer, b, Some(token), all, texts)
    ensures tokenizer.buffer == b && Ended(b[..], token) && Ended(b[..], tokenizer.pos)
    ensures all == texts + [StringAt(b[..], token)] + Tokenized(StringAt(b[..], tokenizer.pos), [BLANK])
  {
  }

  lemma FirstAhead(tokenizer: Tokenizer, b: array<Byte>, token: nat, all: seq<seq<Byte>>)
    requires Ahead(tokenizer, b, Some(token), all, [])
    ensures tokenizer.buffer == b && Ended(b[..], tokenizer.pos)
    ensures all == [StringAt(b[..], token)] + Tokenized(StringAt(b[..], tokenizer.pos), [BLANK])
  {
    TokenAhead(tokenizer, b, token, all, []);
    assert [] + [StringAt(b[..], token)] == [StringAt(b[..], token)];
  }

  /** No token left, or no allocation. */
  lemma EndOfCommand(tokenizer: Tokenizer, b: array<Byte>, token: Option<nat>, all: seq<seq<Byte>>,
      texts: seq<seq<Byte>>, room: nat)
    requires Ahead(tokenizer, b, token, all, texts) && |texts| <= room && (token.None? || |texts| == room)
    ensures texts == Clipped(all, room) && (tokenizer.buffer == null <==> |all| <= room)
  {
    hide Tokenized, StringAt, Ended;
    assert token.Some? ==> texts == all[..|texts|];
  }

  /** Where the parser stands: the token just found, and the text behind it. */
  ghost predicate Ahead(tokenizer: Tokenizer, b: array<Byte>, token: Option<nat>, all: seq<seq<Byte>>,
      texts: seq<seq<Byte>>)
    reads tokenizer, b
  {
    if token.None? then tokenizer.buffer == null && all == texts
    else
      && tokenizer.buffer == b && Ended(b[..], token.value) && Ended(b[..], tokenizer.pos)
      && all == texts + [StringAt(b[..], token.value)] + Tokenized(StringAt(b[..], tokenizer.pos), [BLANK])
  }

  lemma AheadOf(tokenizer: Tokenizer, b: array<Byte>, before: seq<Byte>, p: nat, token: Option<nat>,
                all: seq<seq<Byte>>, texts: seq<seq<Byte>>)
    requires Took(before, p, [BLANK], token, tokenizer.buffer, tokenizer.pos, b[..])
    requires tokenizer.buffer != null ==> tokenizer.buffer == b
    requires all == texts + Tokenized(StringAt(before, p), [BLANK])
    ensures Ahead(tokenizer, b, token, all, texts)
  {
    hide Tokenized, Trimmed, Behind, Span, StringAt, Ended;
    NextToken(StringAt(before, p), [BLANK]);
  }

  method CopyCommand(scommand: array<Byte>, command: seq<Byte>)
    requires scommand.Length == COMMAND_SIZE && (0 in command || COMMAND_SIZE - 1 <= |command|)
    modifies scommand
    ensures Ended(scommand[..], 0) && StringAt(scommand[..], 0) == Within(command, COMMAND_SIZE - 1)
  {
    hide Within, CText;
    Strncpy(scommand, 0, command, COMMAND_SIZE);
    StringIs(scommand[..], 0, Within(command, COMMAND_SIZE - 1));
  }

  /** "a b" has two tokens. */
  lemma TwoTokens(s: seq<Byte>)
    requires s == [97, BLANK, 98, 0]
    ensures Tokenized(Within(s, COMMAND_SIZE - 1), [BLANK]) == [[97], [98]]
  {
    assert s[..3] == [97, BLANK, 98];
    WithinIs(s, 3, COMMAND_SIZE - 1);
    var tokens, gaps: seq<seq<Byte>> := [[97], [98]], [[BLANK], []];
    assert tokens[1..] == [[98]] && gaps[1..] == [[]];
    assert [[98 as Byte]][1..] == [];
    assert Spread([BLANK], [[98]], [[]]) == [BLANK, 98];
    assert Spread([], tokens, gaps) == [97, BLANK, 98];
    SpreadTokenized([], tokens, gaps, [BLANK]);
  }

  /** Parsing "a b" with memory for one argument leaves the tokenizer with a place in the middle of it. */
  method LeaveThePlace() returns (tokenizer: Tokenizer)
    ensures fresh(tokenizer) && tokenizer.buffer != null
  {
    hide Texts, Linked;
    tokenizer := new Tokenizer();
    var command: seq<Byte> := [97, BLANK, 98, 0];
    TwoTokens(command);
    assert command[3] == 0;
    var root;
    ghost var nodes;
    root, nodes := ParseCommand(tokenizer, command, 4, 1);
  }

  // ---------------------------------------------------------------- counting and copying arguments

  /** process_count_command_arguments. */
  method Count(root: Node?<()>, ghost nodes: seq<Argument>) returns (i: nat)
    requires Linked(root, nodes)
    ensures i == |nodes|
  {
    var current := root;
    i := 0;
    while current != null
      invariant i <= |nodes| && current == if i < |nodes| then nodes[i] else null
      decreases |nodes| - i
    {
      NextOf(root, nodes, i);
      i := i + 1;
      current := current.next;
    }
  }

  /** strncpy of one argument's string into another's space, which has room for all of it. */
  method CopyString(dest: array<Byte>, src: array<Byte>)
    requires dest.Length == ARGUMENT_SIZE == src.Length && dest != src && Ended(src[..], 0)
    modifies dest
    ensures StringAt(dest[..], 0) == StringAt(src[..], 0) && Ended(dest[..], 0)
  {
    hide Within, CText;
    ghost var s := src[..];
    assert s[0..] == s;
    StringBytes(s, 0);
    Strncpy(dest, 0, src[..], ARGUMENT_SIZE);
    WithinIsClipped(s, ARGUMENT_SIZE - 1);
    StringIs(dest[..], 0, Within(s, ARGUMENT_SIZE - 1));
  }

  // ---------------------------------------------------------------- reading a line

  const RETURN: Byte := 13
  const ERASE: Byte := 8

  /** What is on the line after the keys, given what was on it before: a return or a full line ends
      it, an erase takes back a character, or is one when there is none. */
  function Line(typed: seq<Byte>, keys: seq<Byte>, limit: nat): (line: seq<Byte>)
    requires |typed| <= limit
    ensures |line| <= limit
    decreases |keys|
  {
    if |typed| == limit || keys == [] || keys[0] == RETURN then typed
    else if keys[0] == ERASE && typed != [] then Line(typed[..|typed| - 1], keys[1..], limit)
    else Line(typed + [keys[0]], keys[1..], limit)
  }

  /** The line ends within these keys. */
  predicate Finishes(typed: seq<Byte>, keys: seq<Byte>, limit: nat)
    requires |typed| <= limit
    decreases |keys|
  {
    |typed| == limit || (keys != [] && (keys[0] == RETURN ||
      if keys[0] == ERASE && typed != [] then Finishes(typed[..|typed| - 1], keys[1..], limit)
      else Finishes(typed + [keys[0]], keys[1..], limit)))
  }

  /** A character taken back at once was never typed, if there was room for one more than it. */
  lemma ErasedAtOnce(typed: seq<Byte>, c: Byte, keys: seq<Byte>, limit: nat)
    requires |typed| + 1 < limit && c != 13 && (c == 8 ==> typed == [])
    ensures Line(typed, [c, 8] + keys, limit) == Line(typed, keys, limit)
  {
    assert ([c, ERASE] + keys)[1..] == [ERASE] + keys;
    assert ([ERASE] + keys)[1..] == keys;
    assert (typed + [c])[..|typed|] == typed;
    assert Line(typed, [c, ERASE] + keys, limit) == Line(typed + [c], [ERASE] + keys, limit);
  }

  /** On an empty line an erase is a character like any other. */
  lemma EraseOnNothing(keys: seq<Byte>, limit: nat)
    requires 0 < limit
    ensures Line([], [8] + keys, limit) == Line([8], keys, limit)
  {
    assert ([8 as Byte] + keys)[1..] == keys && [] + [8 as Byte] == [8];
  }

  /** Ordinary characters and a return give the characters. */
  lemma {:induction false} PlainLine(typed: seq<Byte>, text: seq<Byte>, keys: seq<Byte>, limit: nat)
    requires |typed| + |text| <= limit && 13 !in text && 8 !in text
    ensures Line(typed, text + [13] + keys, limit) == typed + text
    decreases |text|
  {
    var all := text + [RETURN] + keys;
    if text == [] {
      assert all[0] == RETURN && typed + text == typed;
    } else {
      assert all[0] == text[0] && all[1..] == text[1..] + [RETURN] + keys;
      PlainLine(typed + [text[0]], text[1..], keys, limit);
      assert typed + [text[0]] + text[1..] == typed + text;
    }
  }

  /** pandora_terminal_readline, from the keys it is given until it is done. */
  method ReadLine(keys: seq<Byte>, out: array<Byte>, max: int) returns (i: int)
    requires max <= out.Length && 0 < out.Length
    requires Finishes([], keys, if 1 <= max then max - 1 else 0)
    modifies out
    ensures var line := Line([], keys, if 1 <= max then max - 1 else 0);
            i == |line| < out.Length && out[..i] == line && out[i] == 0
  {
    ghost var limit: nat := if 1 <= max then max - 1 else 0;
    ghost var typed: seq<Byte>, rest := [], keys;
    var k := 0;
    i := 0;
    while i < max - 1
      invariant 0 <= i <= limit && k <= |keys|
      invariant typed == out[..i] && rest == keys[k..]
      invariant Line(typed, rest, limit) == Line([], keys, limit) && Finishes(typed, rest, limit)
      decreases |keys| - k
    {
      ghost var more := keys[k + 1..];
      assert rest[1..] == more;
      var key := keys[k];
      k := k + 1;
      if key == RETURN {
        break;
      }
      if key == ERASE && i >= 1 {
        out[i - 1] := 0;
        i := i - 2;
        i := i + 1;
        assert out[..i] == typed[..|typed| - 1];
        typed, rest := typed[..|typed| - 1], more;
        continue;
      }
      out[i] := key;
      i := i + 1;
      assert out[..i] == typed + [key];
      typed, rest := typed + [key], more;
    }
    out[i] := 0;
  }
}
