/** What a chunk-size line is (src/chunked.rs): the lines that parse, taken apart. */
module SizeLines {
  import opened Bytes
  import opened ChunkedSpec

  /** The code points of white space. */
  predicate IsWhiteSpace(c: nat) {
    || 9 <= c <= 13 || c == 32 || c == 0x85 || c == 0xA0 || c == 0x1680 || 0x2000 <= c <= 0x200A
    || c in {0x2028, 0x2029, 0x202F, 0x205F, 0x3000}
  }

  /** A code point in UTF-8 (section 3 of RFC 3629). */
  function Utf8Form(c: nat): (form: bytes)
    requires c < 0x11_0000
    ensures form != []
  {
    if c < 0x80 then [c]
    else if c < 0x800 then [0xC0 + c / 64, 0x80 + c % 64]
    else if c < 0x1_0000 then [0xE0 + c / 4096, 0x80 + (c / 64) % 64, 0x80 + c % 64]
    else [0xF0 + c / 0x4_0000, 0x80 + (c / 4096) % 64, 0x80 + (c / 64) % 64, 0x80 + c % 64]
  }

  ghost predicate BeginsWith(s: bytes, c: nat) {
    c < 0x1_0000 && IsWhiteSpace(c) && Utf8Form(c) <= s
  }

  /** The code point of the white space that `s` starts with. */
  function SpaceCode(s: bytes): nat
    requires SpaceAt(s) > 0
  {
    if s[0] < 0x80 then s[0]
    else if s[0] == 0xC2 then s[1]
    else
      var a: int, b: int, c: int := s[0], s[1], s[2];
      (a - 0xE0) * 4096 + (b - 0x80) * 64 + (c - 0x80)
  }

  lemma SpaceHasCode(s: bytes)
    requires SpaceAt(s) > 0
    ensures BeginsWith(s, SpaceCode(s)) && |Utf8Form(SpaceCode(s))| == SpaceAt(s)
  {
  }

  lemma CodeIsSpace(s: bytes, c: nat)
    requires BeginsWith(s, c)
    ensures SpaceAt(s) == |Utf8Form(c)|
  {
    var form := Utf8Form(c);
    assert forall i :: 0 <= i < |form| ==> s[i] == form[i];
  }

  /** Main result: what a trim removes is white space, character by character. */
  lemma SpaceExactly(s: bytes, n: nat)
    requires n > 0
    ensures SpaceAt(s) == n <==> exists c: nat :: BeginsWith(s, c) && |Utf8Form(c)| == n
  {
    hide SpaceAt, Utf8Form, SpaceCode;
    if SpaceAt(s) == n {
      SpaceHasCode(s);
    }
    forall c: nat | BeginsWith(s, c) && |Utf8Form(c)| == n
      ensures SpaceAt(s) == n
    {
      CodeIsSpace(s, c);
    }
  }

  /** White-space characters, one after another. */
  predicate AreSpaces(chars: seq<bytes>) {
    forall i :: 0 <= i < |chars| ==> chars[i] != [] && SpaceAt(chars[i]) == |chars[i]|
  }

  /** One or more hex digits, and what they are worth. */
  predicate AreDigits(ds: bytes) {
    ds != [] && forall i :: 0 <= i < |ds| ==> HexDigit(ds[i]).Some?
  }

  function Worth(ds: bytes): nat {
    if ds == [] then 0
    else
      var low := HexDigit(ds[|ds| - 1]);
      16 * Worth(ds[..|ds| - 1]) + if low.Some? then low.value else 0
  }

  /** The parts of a size line: white space, an optional plus, digits, white
  space again, and either nothing or a semicolon and anything. */
  datatype SizeParts = SizeParts(lead: seq<bytes>, plus: bool, digits: bytes, trail: seq<bytes>, extension: bytes) {
    ghost predicate Says(n: nat) {
      && AreSpaces(lead) && AreSpaces(trail) && AreDigits(digits) && Worth(digits) == n < 0x1_0000_0000_0000_0000
      && (extension == [] || extension[0] == 59)
    }

    function Core(): bytes {
      (if plus then [43] else []) + digits
    }

    function Print(): bytes {
      Flatten(lead) + (Core() + (Flatten(trail) + extension))
    }
  }

  lemma {:induction false} ValueIsWorth(ds: bytes)
    ensures HexValue(ds) == if (forall i :: 0 <= i < |ds| ==> HexDigit(ds[i]).Some?) && Worth(ds) < SIZE_LIMIT
                            then Some(Worth(ds)) else None
  {
    if ds != [] {
      ValueIsWorth(ds[..|ds| - 1]);
      assert forall i :: 0 <= i < |ds| ==> ds[i] == if i < |ds| - 1 then ds[..|ds| - 1][i] else ds[|ds| - 1];
    }
  }

  lemma {:induction false} StartTrims(s: bytes) returns (lead: seq<bytes>)
    ensures AreSpaces(lead) && s == Flatten(lead) + TrimStart(s)
    decreases |s|
  {
    hide SpaceAt, Flatten;
    var n := SpaceAt(s);
    if n == 0 {
      NothingFlat();
      assert [] + s == s;
      return [];
    }
    var more := StartTrims(s[n..]);
    SpaceAlone(s, n);
    PutInFront(s, n, more, TrimStart(s[n..]));
    lead := [s[..n]] + more;
  }

  lemma PutInFront(s: bytes, n: nat, more: seq<bytes>, rest: bytes)
    requires n <= |s| && s[n..] == Flatten(more) + rest
    ensures s == Flatten([s[..n]] + more) + rest
  {
    hide Flatten;
    FlattenFront(s[..n], more);
    Regroup(s[..n], Flatten(more), rest);
    assert s == s[..n] + s[n..];
  }

  /** The character at the front is white space by itself. */
  lemma SpaceAlone(s: bytes, n: nat)
    requires n == SpaceAt(s)
    ensures SpaceAt(s[..n]) == n
  {
  }

  lemma {:induction false} EndTrims(s: bytes) returns (trail: seq<bytes>)
    ensures AreSpaces(trail) && s == TrimEnd(s) + Flatten(trail)
    decreases |s|
  {
    hide SpaceAt, EndSpace, Flatten;
    var n := EndSpace(s);
    if n == 0 {
      assert s + [] == s;
      NothingFlat();
      return [];
    }
    var init := EndTrims(s[..|s| - n]);
    var last := s[|s| - n..];
    FlattenOne(init, last);
    Regroup(TrimEnd(s), Flatten(init), last);
    assert s == s[..|s| - n] + last;
    trail := init + [last];
  }

  lemma NothingFlat()
    ensures Flatten([]) == []
  {
  }

  lemma FlattenFront(first: bytes, more: seq<bytes>)
    ensures Flatten([first] + more) == first + Flatten(more)
  {
    assert ([first] + more)[1..] == more;
  }

  lemma FlattenOne(init: seq<bytes>, last: bytes)
    ensures Flatten(init + [last]) == Flatten(init) + last
  {
    FlattenConcat(init, [last]);
    assert [last][1..] == [] && last + [] == last;
  }

  lemma {:induction false} StartTrimmed(lead: seq<bytes>, core: bytes)
    requires AreSpaces(lead) && SpaceAt(core) == 0
    ensures TrimStart(Flatten(lead) + core) == core
  {
    if lead == [] {
      assert Flatten(lead) + core == core;
    } else {
      var more := Flatten(lead[1..]) + core;
      assert Flatten(lead) + core == lead[0] + more;
      SpaceInFront(lead[0], more);
      StartTrimmed(lead[1..], core);
      assert (lead[0] + more)[|lead[0]|..] == more;
    }
  }

  lemma SpaceInFront(space: bytes, more: bytes)
    requires space != [] && SpaceAt(space) == |space|
    ensures SpaceAt(space + more) == |space|
  {
  }

  lemma {:induction false} EndTrimmed(core: bytes, trail: seq<bytes>)
    requires AreSpaces(trail) && EndSpace(core) == 0
    ensures TrimEnd(core + Flatten(trail)) == core
  {
    hide SpaceAt, EndSpace;
    if trail == [] {
      assert core + Flatten(trail) == core;
    } else {
      var init, last := trail[..|trail| - 1], trail[|trail| - 1];
      hide Flatten, TrimEnd;
      assert trail == init + [last];
      FlattenOne(init, last);
      Regroup(core, Flatten(init), last);
      TrimsOne(core + Flatten(init), last);
      EndTrimmed(core, init);
    }
  }

  lemma TrimsOne(front: bytes, last: bytes)
    requires last != [] && SpaceAt(last) == |last|
    ensures TrimEnd(front + last) == TrimEnd(front)
  {
    SpaceAtEnd(front, last);
    assert (front + last)[..|front|] == front;
    hide SpaceAt, EndSpace;
  }

  lemma SpaceAtEnd(front: bytes, last: bytes)
    requires last != [] && SpaceAt(last) == |last|
    ensures EndSpace(front + last) == |last|
  {
    var s := front + last;
    assert s[|front|..] == last;
    assert s[|s| - 1..] == [last[|last| - 1]];
    if |last| == 3 {
      assert s[|s| - 2..] == last[1..];
    }
  }

  lemma {:induction false} BeforeIs(before: bytes, extension: bytes)
    requires forall i :: 0 <= i < |before| ==> before[i] != SEMICOLON
    requires extension == [] || extension[0] == SEMICOLON
    ensures BeforeExtensions(before + extension) == before
  {
    if before == [] {
      assert before + extension == extension;
    } else {
      assert (before + extension)[1..] == before[1..] + extension;
      BeforeIs(before[1..], extension);
    }
  }

  lemma {:induction false} BeforeSplits(line: bytes) returns (extension: bytes)
    ensures line == BeforeExtensions(line) + extension
    ensures extension == [] || extension[0] == SEMICOLON
  {
    if line == [] || line[0] == SEMICOLON {
      extension := line;
    } else {
      extension := BeforeSplits(line[1..]);
      Regroup([line[0]], BeforeExtensions(line[1..]), extension);
      assert line == [line[0]] + line[1..];
    }
  }

  lemma {:induction false} SpacesHaveNoSemicolon(chars: seq<bytes>)
    requires AreSpaces(chars)
    ensures SEMICOLON !in Flatten(chars)
  {
    if chars != [] {
      SpacesHaveNoSemicolon(chars[1..]);
      assert SpaceAt(chars[0]) == |chars[0]|;
    }
  }

  /** A byte that is neither a control character nor part of another. */
  predicate IsPrinting(b: byte) {
    33 <= b < 127
  }

  lemma NoSpaceAtStart(s: bytes)
    requires s != [] && IsPrinting(s[0])
    ensures SpaceAt(s) == 0
  {
  }

  lemma NoSpaceAtEnd(s: bytes)
    requires s != [] && IsPrinting(s[|s| - 1])
    ensures EndSpace(s) == 0
  {
  }

  lemma CorePrints(parts: SizeParts)
    requires AreDigits(parts.digits)
    ensures parts.Core() != []
    ensures forall i :: 0 <= i < |parts.Core()| ==> IsPrinting(parts.Core()[i]) && parts.Core()[i] != SEMICOLON
  {
    var core, digits := parts.Core(), parts.digits;
    forall i | 0 <= i < |core|
      ensures IsPrinting(core[i]) && core[i] != SEMICOLON
    {
      var k := if parts.plus then i - 1 else i;
      assert k < 0 || HexDigit(digits[k]).Some?;
    }
  }

  lemma CoreReadsBack(parts: SizeParts, n: nat)
    requires AreDigits(parts.digits) && Worth(parts.digits) == n < SIZE_LIMIT
    ensures ParseHex(parts.Core()) == Some(n)
  {
    hide HexValue, HexDigit, Worth;
    var digits := parts.digits;
    ValueIsWorth(digits);
    DigitIsNoPlus(digits[0]);
    if parts.plus {
      assert parts.Core()[1..] == digits;
    } else {
      assert parts.Core() == digits;
    }
  }

  lemma DigitIsNoPlus(b: byte)
    requires HexDigit(b).Some?
    ensures b != PLUS
  {
  }

  lemma CoreKept(parts: SizeParts, n: nat)
    requires parts.Says(n)
    ensures SEMICOLON !in parts.Core() && SpaceAt(parts.Core() + Flatten(parts.trail)) == 0
    ensures EndSpace(parts.Core()) == 0 && ParseHex(parts.Core()) == Some(n)
  {
    hide SpaceAt, EndSpace, HexValue, HexDigit, Worth, Flatten, ParseHex, AreSpaces, AreDigits, IsPrinting;
    CorePrints(parts);
    CoreReadsBack(parts, n);
    NoSpaceAtStart(parts.Core() + Flatten(parts.trail));
    NoSpaceAtEnd(parts.Core());
  }

  /** Main result: the size lines, and no others, are white space, an optional
  plus, hex digits worth a 64-bit number, white space and an extension. */
  lemma ParseSizeExactly(line: bytes, n: nat)
    ensures ParseSize(line) == Some(n) <==> exists parts: SizeParts :: parts.Says(n) && line == parts.Print()
  {
    if ParseSize(line) == Some(n) {
      var parts := SizeReads(line, n);
      assert parts.Says(n) && line == parts.Print();
    }
    forall parts: SizeParts | parts.Says(n) && line == parts.Print()
      ensures ParseSize(line) == Some(n)
    {
      SizePrints(parts, n);
    }
  }

  lemma NotInAny(a: bytes, b: bytes, c: bytes)
    requires SEMICOLON !in a && SEMICOLON !in b && SEMICOLON !in c
    ensures var s := a + (b + c); forall i :: 0 <= i < |s| ==> s[i] != SEMICOLON
  {
  }

  lemma SizePrints(parts: SizeParts, n: nat)
    requires parts.Says(n)
    ensures ParseSize(parts.Print()) == Some(n)
  {
    var lead, core, trail := Flatten(parts.lead), parts.Core(), Flatten(parts.trail);
    CoreKept(parts, n);
    SpacesHaveNoSemicolon(parts.lead);
    SpacesHaveNoSemicolon(parts.trail);
    hide Flatten, SpaceAt, EndSpace, TrimStart, TrimEnd, ParseHex, BeforeExtensions, Worth, HexDigit, SizeParts.Core;
    var before := lead + (core + trail);
    Regroup(core, trail, parts.extension);
    Regroup(lead, core + trail, parts.extension);
    NotInAny(lead, core, trail);
    BeforeIs(before, parts.extension);
    StartTrimmed(parts.lead, core + trail);
    EndTrimmed(core, parts.trail);
  }

  lemma SizeReads(line: bytes, n: nat) returns (parts: SizeParts)
    requires ParseSize(line) == Some(n)
    ensures parts.Says(n) && line == parts.Print()
  {
    var extension := BeforeSplits(line);
    var before := BeforeExtensions(line);
    var lead := StartTrims(before);
    var trail := EndTrims(TrimStart(before));
    var core := TrimEnd(TrimStart(before));
    hide SpaceAt, TrimStart, TrimEnd, BeforeExtensions;
    var plus, digits := CoreReads(core, n);
    parts := SizeParts(lead, plus, digits, trail, extension);
    hide ParseHex, Flatten, AreSpaces, AreDigits, Worth;
    Regroup(core, Flatten(trail), extension);
    Regroup(Flatten(lead), core + Flatten(trail), extension);
  }

  lemma CoreReads(core: bytes, n: nat) returns (plus: bool, digits: bytes)
    requires ParseHex(core) == Some(n)
    ensures core == (if plus then [PLUS] else []) + digits
    ensures AreDigits(digits) && Worth(digits) == n < SIZE_LIMIT
  {
    plus := core[0] == PLUS;
    digits := if plus then core[1..] else core;
    ValueIsWorth(digits);
  }
}
