/** What header fields say (src/tunnel.rs), apart from the functions that read
them: numbers, the last transfer coding, and the names looked for. */
module HeaderFields {
  import opened Bytes
  import opened Multipart
  import opened ResponseHead
  import opened SizeLines
  import ChunkedSpec

  // ----- UTF-8

  predicate IsScalar(c: nat) {
    c < 0xD800 || 0xE000 <= c < 0x11_0000
  }

  /** Text made of these code points. */
  function Spelled(cs: seq<nat>): bytes
    requires forall i :: 0 <= i < |cs| ==> IsScalar(cs[i])
  {
    if cs == [] then []
    else
      assert IsScalar(cs[0]);
      Utf8Form(cs[0]) + Spelled(cs[1..])
  }

  ghost predicate Spells(s: bytes, cs: seq<nat>) {
    (forall i :: 0 <= i < |cs| ==> IsScalar(cs[i])) && s == Spelled(cs)
  }

  /** The code point that the character at the front of `s` stands for. */
  function CodeOf(s: bytes): int
    requires CharLength(s) > 0
  {
    match CharLength(s)
    case 1 => s[0]
    case 2 => Code(0, 0, s[0] as int - 0xC0, s[1] as int - 0x80)
    case 3 => Code(0, s[0] as int - 0xE0, s[1] as int - 0x80, s[2] as int - 0x80)
    case _ => Code(s[0] as int - 0xF0, s[1] as int - 0x80, s[2] as int - 0x80, s[3] as int - 0x80)
  }

  /** A code point from its parts of six bits. */
  function Code(a: int, b: int, c: int, d: int): int {
    a * 0x4_0000 + b * 4096 + c * 64 + d
  }

  lemma CodeParts(a: int, b: int, c: int, d: int)
    requires 0 <= a <= 4 && 0 <= b < 64 && 0 <= c < 64 && 0 <= d < 64
    ensures var n := Code(a, b, c, d);
      n / 0x4_0000 == a && (n / 4096) % 64 == b && (n / 64) % 64 == c && n % 64 == d
    ensures a == 0 ==> Code(a, b, c, d) / 4096 == b
    ensures a == b == 0 ==> Code(a, b, c, d) / 64 == c
  {
    LowPart(a * 4096 + b * 64 + c, d);
    LowPart(a * 64 + b, c);
    LowPart(a, b);
    HighParts(a, b, c, d);
  }

  lemma LowPart(high: int, low: int)
    requires 0 <= low < 64
    ensures (high * 64 + low) / 64 == high && (high * 64 + low) % 64 == low
  {
  }

  lemma HighParts(a: int, b: int, c: int, d: int)
    requires 0 <= b < 64 && 0 <= c < 64 && 0 <= d < 64
    ensures Code(a, b, c, d) / 4096 == a * 64 + b && Code(a, b, c, d) / 0x4_0000 == a
  {
    assert Code(a, b, c, d) == (a * 64 + b) * 4096 + (c * 64 + d);
    assert Code(a, b, c, d) == a * 0x4_0000 + (b * 4096 + c * 64 + d);
  }

  lemma TwoHaveCode(a: byte, b: byte)
    requires 0xC2 <= a <= 0xDF && Continuation(b)
    ensures var c := Code(0, 0, a as int - 0xC0, b as int - 0x80); 0x80 <= c < 0x800 && Utf8Form(c) == [a, b]
  {
    CodeParts(0, 0, a as int - 0xC0, b as int - 0x80);
  }

  lemma ThreeHaveCode(a: byte, b: byte, c: byte)
    requires 0xE0 <= a <= 0xEF && Continuation(b) && Continuation(c)
    requires (a == 0xE0 ==> b >= 0xA0) && (a == 0xED ==> b <= 0x9F)
    ensures var n := Code(0, a as int - 0xE0, b as int - 0x80, c as int - 0x80);
      0x800 <= n < 0x1_0000 && IsScalar(n) && Utf8Form(n) == [a, b, c]
  {
    CodeParts(0, a as int - 0xE0, b as int - 0x80, c as int - 0x80);
  }

  lemma FourHaveCode(a: byte, b: byte, c: byte, d: byte)
    requires 0xF0 <= a <= 0xF4 && Continuation(b) && Continuation(c) && Continuation(d)
    requires (a == 0xF0 ==> b >= 0x90) && (a == 0xF4 ==> b <= 0x8F)
    ensures var n := Code(a as int - 0xF0, b as int - 0x80, c as int - 0x80, d as int - 0x80);
      0x1_0000 <= n < 0x11_0000 && Utf8Form(n) == [a, b, c, d]
  {
    CodeParts(a as int - 0xF0, b as int - 0x80, c as int - 0x80, d as int - 0x80);
  }

  lemma CharHasCode(s: bytes)
    requires CharLength(s) > 0
    ensures var c := CodeOf(s); 0 <= c && IsScalar(c) && Utf8Form(c) == s[..CharLength(s)]
  {
    hide Utf8Form, Code;
    var n := CharLength(s);
    if n == 1 {
      OneHasCode(s[0]);
      assert s[..1] == [s[0]];
    } else if n == 2 {
      TwoHaveCode(s[0], s[1]);
      assert s[..2] == [s[0], s[1]];
    } else if n == 3 {
      ThreeHaveCode(s[0], s[1], s[2]);
      assert s[..3] == [s[0], s[1], s[2]];
    } else {
      FourHaveCode(s[0], s[1], s[2], s[3]);
      assert s[..4] == [s[0], s[1], s[2], s[3]];
    }
  }

  lemma OneHasCode(a: byte)
    requires a < 0x80
    ensures Utf8Form(a) == [a]
  {
  }

  /** The bounds of the bytes of a code point. */
  lemma FormBounds(c: nat)
    requires IsScalar(c)
    ensures var f := Utf8Form(c);
      && (|f| == 1 ==> f[0] < 0x80)
      && (|f| == 2 ==> 0xC2 <= f[0] <= 0xDF && Continuation(f[1]))
      && (|f| == 3 ==> 0xE0 <= f[0] <= 0xEF && Continuation(f[1]) && Continuation(f[2])
                       && (f[0] == 0xE0 ==> f[1] >= 0xA0) && (f[0] == 0xED ==> f[1] <= 0x9F))
      && (|f| == 4 ==> 0xF0 <= f[0] <= 0xF4 && Continuation(f[1]) && Continuation(f[2]) && Continuation(f[3])
                       && (f[0] == 0xF0 ==> f[1] >= 0x90) && (f[0] == 0xF4 ==> f[1] <= 0x8F))
      && |f| <= 4
  {
  }

  lemma CodeIsChar(c: nat, rest: bytes)
    requires IsScalar(c)
    ensures CharLength(Utf8Form(c) + rest) == |Utf8Form(c)|
  {
    FormBounds(c);
    hide Utf8Form, IsScalar;
    var f, s := Utf8Form(c), Utf8Form(c) + rest;
    assert forall i :: 0 <= i < |f| ==> s[i] == f[i];
  }

  lemma {:induction false} SpelledIsUtf8(cs: seq<nat>)
    requires forall i :: 0 <= i < |cs| ==> IsScalar(cs[i])
    ensures Utf8(Spelled(cs))
  {
    if cs != [] {
      hide CharLength, Utf8Form, IsScalar;
      SpelledIsUtf8(cs[1..]);
      CodeIsChar(cs[0], Spelled(cs[1..]));
      var s, n := Spelled(cs), |Utf8Form(cs[0])|;
      assert s[n..] == Spelled(cs[1..]);
    }
  }

  lemma {:induction false} Utf8IsSpelled(s: bytes) returns (cs: seq<nat>)
    requires Utf8(s)
    ensures Spells(s, cs)
    decreases |s|
  {
    if s == [] {
      cs := [];
    } else {
      hide CharLength, Utf8Form, IsScalar, CodeOf;
      var n := CharLength(s);
      CharHasCode(s);
      var more := Utf8IsSpelled(s[n..]);
      SpellsMore(s, n, CodeOf(s), more);
      cs := [CodeOf(s) as nat] + more;
    }
  }

  lemma SpellsMore(s: bytes, n: nat, c: nat, more: seq<nat>)
    requires n <= |s| && IsScalar(c) && Utf8Form(c) == s[..n] && Spells(s[n..], more)
    ensures Spells(s, [c] + more)
  {
    hide IsScalar, Utf8Form;
    var cs := [c] + more;
    assert cs[1..] == more && s == s[..n] + s[n..];
  }

  /** Main result: the texts accepted are those that spell code points. */
  lemma Utf8Exactly(s: bytes)
    ensures Utf8(s) <==> exists cs :: Spells(s, cs)
  {
    if Utf8(s) {
      var cs := Utf8IsSpelled(s);
    }
    if cs :| Spells(s, cs) {
      SpelledIsUtf8(cs);
    }
  }

  // ----- numbers

  /** An optional plus and decimal digits worth `n`. */
  ghost predicate IsNumber(s: bytes, n: int) {
    exists plus, digits :: ReadsAs(s, plus, digits, n)
  }

  ghost predicate ReadsAs(s: bytes, plus: bool, digits: bytes, n: int) {
    && s == (if plus then [43] else []) + digits && digits != []
    && (forall i :: 0 <= i < |digits| ==> 48 <= digits[i] <= 57)
    && DecimalValue(digits) == n
  }

  lemma NumberExactly(s: bytes, limit: nat, n: nat)
    ensures ParseNumber(s, limit) == Some(n) <==> IsNumber(s, n) && n < limit
  {
    if ParseNumber(s, limit) == Some(n) {
      NumberParses(s, limit, n);
    }
    if IsNumber(s, n) && n < limit {
      var plus, digits :| ReadsAs(s, plus, digits, n);
      NumberIsRead(s, limit, plus, digits, n);
    }
  }

  lemma NumberParses(s: bytes, limit: nat, n: nat)
    requires ParseNumber(s, limit) == Some(n)
    ensures IsNumber(s, n) && n < limit
  {
    if s != [] && s[0] == PLUS {
      assert ReadsAs(s, true, s[1..], n);
    } else {
      assert [] + s == s;
      assert ReadsAs(s, false, s, n);
    }
  }

  lemma NumberIsRead(s: bytes, limit: nat, plus: bool, digits: bytes, n: nat)
    requires ReadsAs(s, plus, digits, n) && n < limit
    ensures ParseNumber(s, limit) == Some(n)
  {
    assert digits[0] != PLUS && s[0] == (if plus then 43 else digits[0]);
    assert digits == if plus then s[1..] else s;
    hide DecimalValue;
  }

  /** A status line says a number below 2^16 as its second word, if its first
  begins with "HTTP/"; otherwise it is no status line. */
  lemma StatusExactly(version: bytes, word: bytes, reason: bytes, n: nat)
    requires 32 !in version && 32 !in word
    ensures StatusOf(version + ([32] + (word + ([32] + reason)))) == Some(n) <==>
      Ascii("HTTP/") <= version && IsNumber(word, n) && n < 65536
  {
    var rest := word + ([32] + reason);
    SplitOnceIs(version, SPACE, rest);
    SplitOnceIs(word, SPACE, reason);
    assert rest[..|word|] == word;
    NumberExactly(word, STATUS_LIMIT, n);
    hide SplitOnce, IndexOf, IsNumber, ParseNumber;
  }

  /** The length a field gives: its number below 2^64, or zero if it has none. */
  ghost predicate Declares(field: Option<bytes>, n: nat) {
    match field
    case None => n == 0
    case Some(v) =>
      if IsNumber(v, n) then n < 0x1_0000_0000_0000_0000
      else n == 0 && forall m: nat :: m < 0x1_0000_0000_0000_0000 ==> !IsNumber(v, m)
  }

  lemma LengthExactly(v: bytes, n: nat)
    ensures LengthOf(v) == n <==> Declares(Some(v), n)
  {
    NumberExactly(v, LENGTH_LIMIT, n);
    forall m: nat
      ensures ParseNumber(v, LENGTH_LIMIT) == Some(m) <==> IsNumber(v, m) && m < LENGTH_LIMIT
    {
      NumberExactly(v, LENGTH_LIMIT, m);
    }
    hide IsNumber, ParseNumber;
  }

  lemma DecimalIsNumber(n: nat)
    ensures IsNumber(Decimal(n), n)
  {
    DecimalReads(n);
    assert ReadsAs(Decimal(n), false, Decimal(n), n);
  }

  // ----- white space around a field

  lemma TrimIs(lead: seq<bytes>, core: bytes, trail: seq<bytes>)
    requires AreSpaces(lead) && AreSpaces(trail)
    requires core != [] && IsPrinting(core[0]) && IsPrinting(core[|core| - 1])
    ensures Trim(Flatten(lead) + (core + Flatten(trail))) == core
  {
    hide AreSpaces, Flatten, ChunkedSpec.SpaceAt, ChunkedSpec.EndSpace, ChunkedSpec.TrimStart, ChunkedSpec.TrimEnd;
    NoSpaceAtStart(core + Flatten(trail));
    NoSpaceAtEnd(core);
    StartTrimmed(lead, core + Flatten(trail));
    EndTrimmed(core, trail);
  }

  lemma PlainTrims(core: bytes)
    requires core != [] && IsPrinting(core[0]) && IsPrinting(core[|core| - 1])
    ensures Trim(core) == core
  {
    TrimIs([], core, []);
    assert [] + (core + []) == core;
  }

  // ----- the last transfer coding

  /** "chunked", in any case. */
  ghost predicate IsChunkedWord(word: bytes) {
    && |word| == 7
    && forall i :: 0 <= i < 7 ==> word[i] == "chunked"[i] as int || word[i] == "CHUNKED"[i] as int
  }

  ghost predicate CodedAs(value: bytes, before: bytes, lead: seq<bytes>, word: bytes, trail: seq<bytes>) {
    && value == before + (Flatten(lead) + (word + Flatten(trail)))
    && (before == [] || before[|before| - 1] == 44)
    && AreSpaces(lead) && AreSpaces(trail) && IsChunkedWord(word)
  }

  /** After the last comma, if there is one, the value has the word "chunked"
  and nothing but white space around it. */
  ghost predicate EndsInChunked(value: bytes) {
    exists before, lead, word, trail :: CodedAs(value, before, lead, word, trail)
  }

  lemma {:induction false} LastPart(s: bytes) returns (before: bytes)
    ensures s == before + AfterLastComma(s) && (before == [] || before[|before| - 1] == COMMA)
    decreases |s|
  {
    var i := IndexOf(s, COMMA);
    if i < |s| {
      before := LastPart(s[i + 1..]);
      PartInFront(s, i, before, AfterLastComma(s[i + 1..]));
      before := s[..i + 1] + before;
    } else {
      before := [];
    }
  }

  lemma PartInFront(s: bytes, i: nat, before: bytes, rest: bytes)
    requires i < |s| && s[i] == COMMA && s[i + 1..] == before + rest
    requires before == [] || before[|before| - 1] == COMMA
    ensures var all := s[..i + 1] + before; s == all + rest && all[|all| - 1] == COMMA
  {
    Regroup(s[..i + 1], before, rest);
  }

  lemma {:induction false} AfterComma(before: bytes, rest: bytes)
    requires (before == [] || before[|before| - 1] == COMMA) && COMMA !in rest
    ensures AfterLastComma(before + rest) == rest
    decreases |before|
  {
    var s := before + rest;
    var i := IndexOf(s, COMMA);
    if before == [] {
      assert s == rest;
    } else {
      assert s[|before| - 1] == COMMA;
      assert s[i + 1..] == before[i + 1..] + rest;
      AfterComma(before[i + 1..], rest);
    }
  }

  lemma {:induction false} SpacesHaveNoComma(chars: seq<bytes>)
    requires AreSpaces(chars)
    ensures COMMA !in Flatten(chars)
  {
    if chars != [] {
      SpacesHaveNoComma(chars[1..]);
      assert ChunkedSpec.SpaceAt(chars[0]) == |chars[0]|;
    }
  }

  lemma WordLowers(word: bytes)
    ensures Lower(word) == CHUNKED <==> IsChunkedWord(word)
  {
    assert |CHUNKED| == 7;
    assert forall i :: 0 <= i < 7 ==> CHUNKED[i] == "chunked"[i] as int;
    assert forall i :: 0 <= i < 7 ==> "CHUNKED"[i] as int == "chunked"[i] as int - 32;
    assert forall i :: 0 <= i < 7 ==> 97 <= "chunked"[i] as int <= 122;
    if |word| == 7 && Lower(word) == CHUNKED {
      forall i | 0 <= i < 7
        ensures word[i] == "chunked"[i] as int || word[i] == "CHUNKED"[i] as int
      {
        assert Lower(word)[i] == CHUNKED[i];
      }
    }
    assert |Lower(word)| == |word|;
  }

  /** Main result: a transfer coding is taken for chunked if and only if its last
  part is that word, in any case, with white space around it. */
  lemma CodingExactly(value: bytes)
    ensures NamesChunked(value) <==> EndsInChunked(value)
  {
    hide AreSpaces, Flatten, Lower, AfterLastComma;
    if NamesChunked(value) {
      var last := AfterLastComma(value);
      var before := LastPart(value);
      var lead := StartTrims(last);
      var trail := EndTrims(ChunkedSpec.TrimStart(last));
      WordLowers(Trim(last));
      assert CodedAs(value, before, lead, Trim(last), trail);
    }
    if EndsInChunked(value) {
      var before, lead, word, trail :| CodedAs(value, before, lead, word, trail);
      ChunkedIsRead(value, before, lead, word, trail);
    }
  }

  lemma ChunkedIsRead(value: bytes, before: bytes, lead: seq<bytes>, word: bytes, trail: seq<bytes>)
    requires CodedAs(value, before, lead, word, trail)
    ensures NamesChunked(value)
  {
    hide AreSpaces, Flatten, Lower, AfterLastComma, Trim;
    SpacesHaveNoComma(lead);
    SpacesHaveNoComma(trail);
    WordPrints(word);
    AfterComma(before, Flatten(lead) + (word + Flatten(trail)));
    TrimIs(lead, word, trail);
    WordLowers(word);
  }

  lemma WordPrints(word: bytes)
    requires IsChunkedWord(word)
    ensures IsPrinting(word[0]) && IsPrinting(word[6]) && COMMA !in word
  {
  }

  // ----- the names looked for

  /** The names that a gateway and a box write are the ones looked for. */
  lemma NamesAreFound()
    ensures Lower(Trim(Ascii("X-Gateway-Auth-Url"))) == DISCOVERY
    ensures Lower(Trim(Ascii("Content-Length"))) == CONTENT_LENGTH
    ensures Lower(Trim(Ascii("Transfer-Encoding"))) == TRANSFER_ENCODING
  {
    hide Trim, Lower;
    DiscoveryIsFound();
    NameIsFound("Content-Length", "content-length");
    NameIsFound("Transfer-Encoding", "transfer-encoding");
  }

  lemma DiscoveryIsFound()
    ensures Lower(Trim(Ascii("X-Gateway-Auth-Url"))) == DISCOVERY
  {
    hide Trim, Lower;
    NameIsFound("X-Gateway-Auth-Url", "x-gateway-auth-url");
  }

  lemma NameIsFound(s: string, t: string)
    requires 0 < |s| == |t| && 'A' <= s[0] <= 'Z' && 'a' <= s[|s| - 1] <= 'z'
    requires forall i :: 0 <= i < |s| ==>
      s[i] < 128 as char && t[i] == if 'A' <= s[i] <= 'Z' then s[i] + 32 as char else s[i]
    ensures Lower(Trim(Ascii(s))) == Ascii(t)
  {
    hide Trim, Lower;
    PlainTrims(Ascii(s));
    LowerIs(s, t);
  }

  lemma LowerIs(s: string, t: string)
    requires |s| == |t|
    requires forall i :: 0 <= i < |s| ==>
      s[i] < 128 as char && t[i] == if 'A' <= s[i] <= 'Z' then s[i] + 32 as char else s[i]
    ensures Lower(Ascii(s)) == Ascii(t)
  {
  }

  // ----- printed heads

  /** Header `i` has this name, compared without case and white space. */
  predicate HasName(p: Printed, i: nat, name: bytes)
    requires i < |p.headers|
  {
    Lower(Trim(p.headers[i].0)) == name
  }

  /** The last header of a name counts. */
  lemma {:induction false} LastCounts(p: Printed, name: bytes, count: nat, i: nat)
    requires i < count <= |p.headers| && HasName(p, i, name)
    requires forall j :: i < j < count ==> !HasName(p, j, name)
    ensures p.Value(name, count) == Some(Trim(p.headers[i].1))
  {
    hide Trim, Lower;
    if i < count - 1 {
      assert !HasName(p, count - 1, name);
      LastCounts(p, name, count - 1, i);
    }
  }

  lemma {:induction false} NoneCounts(p: Printed, name: bytes, count: nat)
    requires count <= |p.headers| && forall j :: 0 <= j < count ==> !HasName(p, j, name)
    ensures p.Value(name, count) == None
  {
    hide Trim, Lower;
    if 0 < count {
      assert !HasName(p, count - 1, name);
      NoneCounts(p, name, count - 1);
    }
  }

  /** Main result: what a printed head says, in its own terms. */
  lemma PrintedSays(p: Printed)
    requires p.Valid() && Utf8(p.Text())
    ensures HeadOf(p.Text()).Some?
    ensures var head := HeadOf(p.Text()).value;
      var length, coding := p.Value(CONTENT_LENGTH, |p.headers|), p.Value(TRANSFER_ENCODING, |p.headers|);
      && head.status == p.status && head.discovery == p.Value(DISCOVERY, |p.headers|)
      && (head.length.Some? <==> length.Some?)
      && (head.length.Some? ==> Declares(length, head.length.value))
      && (head.chunked <==> coding.Some? && EndsInChunked(coding.value))
  {
    hide Utf8, HeadOf, Printed.Text, Printed.Value, NamesChunked, EndsInChunked, LengthOf, Declares, HeadEnd;
    PrintedReads(p, []);
    var length, coding := p.Value(CONTENT_LENGTH, |p.headers|), p.Value(TRANSFER_ENCODING, |p.headers|);
    if length.Some? {
      LengthExactly(length.value, LengthOf(length.value));
    }
    if coding.Some? {
      CodingExactly(coding.value);
    }
  }
}
