/** The text of a path such as 0:/bin/shell.elf: its format, its components, and how it is printed. */
module PathText {
  import opened Machine
  import opened Bytes

  const SLASH: Byte := 0x2F
  const COLON: Byte := 0x3A

  /** Length of the text before its first slash. */
  function HeadLength(s: seq<Byte>): (i: nat)
    ensures i <= |s| && SLASH !in s[..i] && (i < |s| ==> s[i] == SLASH)
  {
    if s == [] || s[0] == SLASH then 0 else 1 + HeadLength(s[1..])
  }

  lemma {:induction false} HeadLengthIs(s: seq<Byte>, i: nat)
    requires i <= |s| && SLASH !in s[..i] && (i < |s| ==> s[i] == SLASH)
    ensures HeadLength(s) == i
  {
    if 0 < i {
      assert s[..i][0] == s[0] && s[1..][..i - 1] == s[..i][1..];
      HeadLengthIs(s[1..], i - 1);
    }
  }

  /** What is left after the first component and the slash behind it. */
  function AfterHead(s: seq<Byte>): (rest: seq<Byte>)
    ensures s != [] ==> |rest| < |s|
    ensures |rest| <= |s|
  {
    var i := HeadLength(s);
    s[if i < |s| then i + 1 else i..]
  }

  /** The components up to the first empty one. */
  function Components(s: seq<Byte>): seq<seq<Byte>>
    decreases |s|
  {
    if HeadLength(s) == 0 then [] else [s[..HeadLength(s)]] + Components(AfterHead(s))
  }

  predicate Component(part: seq<Byte>) {
    part != [] && SLASH !in part
  }

  function Joined(parts: seq<seq<Byte>>): seq<Byte> {
    if parts == [] then [] else if |parts| == 1 then parts[0] else parts[0] + [SLASH] + Joined(parts[1..])
  }

  /** Nothing, or a slash behind which a component is empty. */
  predicate Closing(tail: seq<Byte>) {
    tail == [] || (tail[0] == SLASH && (|tail| == 1 || tail[1] == SLASH))
  }

  /** Components are what was joined, whatever follows behind an empty component. */
  lemma {:induction false} ComponentsOfJoined(parts: seq<seq<Byte>>, tail: seq<Byte>)
    requires 0 < |parts| && (forall part <- parts :: Component(part)) && Closing(tail)
    ensures Components(Joined(parts) + tail) == parts
    decreases |parts|
  {
    var s, p := Joined(parts) + tail, parts[0];
    assert Component(p);
    assert s[..|p|] == p;
    if |parts| == 1 {
      HeadLengthIs(s, |p|);
      assert tail != [] ==> AfterHead(s) == tail[1..];
    } else {
      assert s == p + [SLASH] + (Joined(parts[1..]) + tail);
      HeadLengthIs(s, |p|);
      assert AfterHead(s) == Joined(parts[1..]) + tail;
      ComponentsOfJoined(parts[1..], tail);
    }
  }

  lemma JoinedCons(head: seq<Byte>, parts: seq<seq<Byte>>)
    requires 0 < |parts|
    ensures Joined([head] + parts) == head + [SLASH] + Joined(parts)
  {
    assert ([head] + parts)[1..] == parts;
  }

  /** A text is its first component, then nothing, or a slash and the rest. */
  lemma HeadAndRest(s: seq<Byte>)
    requires HeadLength(s) < |s|
    ensures s == s[..HeadLength(s)] + [SLASH] + AfterHead(s)
  {
    hide HeadLength;
    var i := HeadLength(s);
    SplitAt(s, i);
  }

  lemma SplitAt(s: seq<Byte>, i: nat)
    requires i < |s|
    ensures s == s[..i] + [s[i]] + s[i + 1..]
  {
  }

  /** And every text that starts with a component is its components joined, then such a tail. */
  lemma {:induction false} JoinedComponents(s: seq<Byte>) returns (tail: seq<Byte>)
    requires Components(s) != []
    ensures s == Joined(Components(s)) + tail && Closing(tail)
    ensures forall part <- Components(s) :: Component(part)
    decreases |s|
  {
    hide HeadLength, AfterHead, Joined;
    var head, rest := s[..HeadLength(s)], AfterHead(s);
    if HeadLength(s) == |s| {
      OnlyHead(s);
      tail := [];
    } else if Components(rest) == [] {
      HeadAndRest(s);
      OnlyHead(rest);
      tail := [SLASH] + rest;
      JoinedOne(head);
      assert Components(s) == [head];
    } else {
      HeadAndRest(s);
      tail := JoinedComponents(rest);
      JoinedCons(head, Components(rest));
    }
  }

  lemma JoinedOne(head: seq<Byte>)
    ensures Joined([head]) == head
  {
  }

  lemma OnlyHead(s: seq<Byte>)
    ensures s != [] && HeadLength(s) == |s| ==> Components(s) == [s] && Joined([s]) == s
    ensures Components(s) == [] && s != [] ==> s[0] == SLASH
  {
    hide HeadLength;
    if s != [] && HeadLength(s) == |s| {
      NoComponents(AfterHead(s));
      assert s[..|s|] == s;
    } else if HeadLength(s) == 0 && s != [] {
      assert s[0] == SLASH;
    }
  }

  lemma NoComponents(s: seq<Byte>)
    requires s == []
    ensures Components(s) == []
  {
  }

  // ---------------------------------------------------------------- drive and format

  /** pathparser_path_valid_format. */
  predicate ValidFormat(text: seq<Byte>) {
    3 <= |text| && IsDigit(text[0]) && text[1] == COLON && text[2] == SLASH
  }

  datatype Path = Path(drive: nat, parts: seq<seq<Byte>>)

  function Printed(drive: nat, parts: seq<seq<Byte>>): seq<Byte>
    requires drive < 10
  {
    [48 + drive, COLON, SLASH] + Joined(parts)
  }

  /** What parsing a text makes of it when `room` heap blocks are free: one goes to the root and two
      to every component, and running out of them looks like the end of the path. */
  function Parsed(text: seq<Byte>, room: nat): Option<Path> {
    if |text| > MAX_PATH || !ValidFormat(text) || room == 0 then None
    else
      var parts := Clipped(Components(text[3..]), (room - 1) / 2);
      if parts == [] then None else
        var digit: int := text[0];
        Some(Path(digit - 48, parts))
  }

  /** Parsing a printed path gives it back, with room for it. */
  lemma ParsePrinted(drive: nat, parts: seq<seq<Byte>>, room: nat)
    requires drive < 10 && 0 < |parts| && (forall part <- parts :: Component(part))
    requires |Printed(drive, parts)| <= MAX_PATH && 1 + 2 * |parts| <= room
    ensures Parsed(Printed(drive, parts), room) == Some(Path(drive, parts))
  {
    ComponentsOfJoined(parts, []);
    assert Joined(parts) + [] == Joined(parts);
    assert Printed(drive, parts)[3..] == Joined(parts);
  }

  /** With room, a text is refused exactly when it is too long, has no drive in front, or starts with
      an empty component; anything else is a printed path and a tail that begins where a component
      is empty. */
  lemma ParsedIff(text: seq<Byte>, room: nat)
    requires 1 + 2 * |text| <= room
    ensures Parsed(text, room) == None <==>
            || |text| > 108 || |text| <= 3
            || !(48 <= text[0] <= 57) || text[1] != 58 || text[2] != 47 || text[3] == 47
    ensures Parsed(text, room).Some? ==>
            var path := Parsed(text, room).value;
            path.drive < 10 && path.drive == text[0] as int - 48 && path.parts == Components(text[3..])
            && exists tail :: Closing(tail) && text == Printed(path.drive, path.parts) + tail
  {
    if |text| <= MAX_PATH && ValidFormat(text) {
      var s := text[3..];
      ComponentsShort(s);
      if Components(s) != [] {
        var tail := JoinedComponents(s);
        var path := Parsed(text, room).value;
        assert text == Printed(path.drive, path.parts) + tail;
      }
    }
  }

  // ---------------------------------------------------------------- with room to spare

  const PATH_ROOM := 1 + 2 * MAX_PATH

  /** Heap blocks that the parsed form of a text holds when there is room for it. */
  function PathBlocks(text: seq<Byte>): nat {
    match Parsed(text, PATH_ROOM)
    case None => 0
    case Some(path) => 1 + 2 * |path.parts|
  }

  lemma RoomEnough(text: seq<Byte>, room: nat)
    requires PATH_ROOM <= room
    ensures Parsed(text, room) == Parsed(text, PATH_ROOM)
    ensures PathBlocks(text) <= PATH_ROOM && (PathBlocks(text) == 0 <==> Parsed(text, PATH_ROOM) == None)
  {
    if |text| <= MAX_PATH && ValidFormat(text) {
      ComponentsShort(text[3..]);
    }
  }

  lemma {:induction false} ComponentsShort(s: seq<Byte>)
    ensures |Components(s)| <= |s|
    decreases |s|
  {
    if HeadLength(s) != 0 {
      ComponentsShort(AfterHead(s));
    }
  }
}
