/** What a chunked body means (src/chunked.rs; section 7.1 of RFC 9112).

`Decode` gives the payload and the final outcome of a raw stream as a function
of the stream alone. The two decoders, `ChunkedReader` and `AsyncBody`, are
proved against it in their own modules. */
module ChunkedSpec {
  import opened Bytes

  const MAX_SIZE_LINE := 1024
  const SIZE_LIMIT := 0x1_0000_0000_0000_0000

  const SEMICOLON: byte := 59
  const PLUS: byte := 43

  datatype Fault = UnexpectedEof | InvalidData

  datatype Outcome = Clean | Failed(fault: Fault)

  datatype State =
    | Size
    | Data(left: nat)
    | DataEnd
    | Trailers
    | Done
  {
    /** Orders the states that hand over to one another without input. */
    function Rank(): nat {
      match this
      case Data(_) => 2
      case DataEnd | Size | Trailers => 1
      case Done => 0
    }
  }

  // ----- lines

  /** Index of the first LF, or the length when there is none. */
  function LineEnd(s: bytes): (e: nat)
    ensures e <= |s|
    ensures e < |s| ==> s[e] == LF
    ensures forall i :: 0 <= i < e ==> s[i] != LF
  {
    if s == [] || s[0] == LF then 0 else 1 + LineEnd(s[1..])
  }

  lemma LineEndIs(s: bytes, e: nat)
    requires e == |s| || (e < |s| && s[e] == LF)
    requires forall i :: 0 <= i < e ==> s[i] != LF
    ensures LineEnd(s) == e
  {
  }

  /** The first LF of a stream, looked for in its middle piece. */
  lemma LineEndAfter(s: bytes, before: bytes, piece: bytes, after: bytes)
    requires s == before + (piece + after) && LineEnd(before) == |before|
    ensures LineEnd(piece) < |piece| ==> LineEnd(s) == |before| + LineEnd(piece)
    ensures LineEnd(piece) == |piece| ==>
      LineEnd(s) >= |before| + |piece| && LineEnd(before + piece) == |before + piece|
  {
    assert forall i :: 0 <= i < |before| ==> s[i] == before[i];
    assert forall i :: 0 <= i < |piece| ==> s[|before| + i] == piece[i];
    if LineEnd(piece) < |piece| {
      LineEndIs(s, |before| + LineEnd(piece));
    } else {
      LineEndIs(before + piece, |before + piece|);
    }
  }

  /** A line's text: its bytes before the LF, without a CR just before it. */
  function Text(s: bytes, e: nat): bytes
    requires e <= |s|
  {
    if 0 < e && s[e - 1] == CR then s[..e - 1] else s[..e]
  }

  datatype LineRead = NoLine | Got(text: bytes, rest: bytes) | Bad(fault: Fault)

  /** The blocking line reader: it looks at 1026 bytes at most. */
  function StrictLine(s: bytes): LineRead {
    var e := LineEnd(s);
    if s == [] then NoLine
    else if e < |s| && e + 1 <= 1026 then Got(Text(s, e), s[e + 1..])
    else if |s| > 1024 then Bad(InvalidData)
    else Bad(UnexpectedEof)
  }

  /** The async line reader at its most lenient: a line can be returned if its
  LF can still be in the fill after 1025 bytes without one. */
  function LaxLine(s: bytes, capacity: nat): LineRead {
    var e := LineEnd(s);
    if s == [] then NoLine
    else if e < |s| && e < 1025 + capacity then Got(Text(s, e), s[e + 1..])
    else if |s| > 1025 then Bad(InvalidData)
    else Bad(UnexpectedEof)
  }

  /** Which lines are too long: for the blocking reader, and at most for the
  async one with a buffer of this capacity. */
  datatype Rule = Strict | Lenient(capacity: nat)

  function ReadLine(s: bytes, rule: Rule): LineRead {
    match rule
    case Strict => StrictLine(s)
    case Lenient(capacity) => LaxLine(s, capacity)
  }

  /** A line reader's answer; what is left of the stream is the reader's own state. */
  datatype Answer = Nothing | Line(text: bytes) | Wrong(fault: Fault) {
    function With(rest: bytes): LineRead {
      match this
      case Nothing => NoLine
      case Line(text) => Got(text, rest)
      case Wrong(f) => Bad(f)
    }
  }

  // ----- chunk sizes

  /** Length of the white-space character that `s` starts with, 0 for none:
  the UTF-8 forms of the characters a string trim removes. */
  function SpaceAt(s: bytes): (n: nat)
    ensures n <= |s|
  {
    if |s| >= 1 && (9 <= s[0] <= 13 || s[0] == 32) then 1
    else if |s| >= 2 && s[0] == 0xC2 && (s[1] == 0x85 || s[1] == 0xA0) then 2
    else if |s| >= 3 &&
      (|| (s[0] == 0xE1 && s[1] == 0x9A && s[2] == 0x80)
       || (s[0] == 0xE2 && s[1] == 0x80 && (0x80 <= s[2] <= 0x8A || s[2] in {0xA8, 0xA9, 0xAF}))
       || (s[0] == 0xE2 && s[1] == 0x81 && s[2] == 0x9F)
       || (s[0] == 0xE3 && s[1] == 0x80 && s[2] == 0x80)) then 3
    else 0
  }

  function TrimStart(s: bytes): bytes
    decreases |s|
  {
    var n := SpaceAt(s);
    if n == 0 then s else TrimStart(s[n..])
  }

  /** Length of the white-space character that `s` ends with, 0 for none. */
  function EndSpace(s: bytes): (n: nat)
    ensures n <= |s|
    ensures n > 0 ==> SpaceAt(s[|s| - n..]) == n
  {
    if |s| >= 1 && SpaceAt(s[|s| - 1..]) == 1 then 1
    else if |s| >= 2 && SpaceAt(s[|s| - 2..]) == 2 then 2
    else if |s| >= 3 && SpaceAt(s[|s| - 3..]) == 3 then 3
    else 0
  }

  function TrimEnd(s: bytes): bytes
    decreases |s|
  {
    var n := EndSpace(s);
    if n == 0 then s else TrimEnd(s[..|s| - n])
  }

  function HexDigit(b: byte): Option<nat> {
    if 48 <= b <= 57 then Some(b - 48)
    else if 65 <= b <= 70 then Some(b - 55)
    else if 97 <= b <= 102 then Some(b - 87)
    else None
  }

  /** The value of a digit string; none for a stray byte or 64-bit overflow. */
  function HexValue(ds: bytes): Option<nat> {
    if ds == [] then Some(0)
    else
      match (HexValue(ds[..|ds| - 1]), HexDigit(ds[|ds| - 1]))
      case (Some(high), Some(low)) =>
        if high * 16 + low < SIZE_LIMIT then Some(high * 16 + low) else None
      case _ => None
  }

  /** A u64 in base 16, with the leading plus sign that Rust allows. */
  function ParseHex(s: bytes): Option<nat> {
    if s == [] || s == [PLUS] then None
    else if s[0] == PLUS then HexValue(s[1..])
    else HexValue(s)
  }

  /** The part of a line before its first semicolon. */
  function BeforeExtensions(line: bytes): bytes {
    if line == [] || line[0] == SEMICOLON then [] else [line[0]] + BeforeExtensions(line[1..])
  }

  /** A chunk-size line. Digits that are not UTF-8 cannot trim to hex digits,
  so that error needs no case of its own. */
  function ParseSize(line: bytes): Option<nat> {
    ParseHex(TrimEnd(TrimStart(BeforeExtensions(line))))
  }

  // ----- whole streams

  datatype Decoded = Decoded(payload: bytes, outcome: Outcome) {
    function After(before: bytes): Decoded {
      Decoded(before + payload, outcome)
    }
  }

  lemma AfterTwice(d: Decoded, a: bytes, b: bytes)
    ensures d.After(b).After(a) == d.After(a + b)
  {
    assert a + (b + d.payload) == a + b + d.payload;
  }

  function Fail(fault: Fault): Decoded {
    Decoded([], Failed(fault))
  }

  const CLEAN := Decoded([], Clean)

  /** What is left to come from `s`, read in state `st`. */
  function Decode(st: State, s: bytes, rule: Rule): Decoded
    decreases |s|, st.Rank()
  {
    match st
    case Done => CLEAN
    case Data(left) =>
      if |s| < left then Decoded(s, Failed(UnexpectedEof))
      else Decode(DataEnd, s[left..], rule).After(s[..left])
    case Size => (
      match ReadLine(s, rule)
      case NoLine => CLEAN
      case Bad(f) => Fail(f)
      case Got(text, rest) =>
        match ParseSize(text)
        case None => Fail(InvalidData)
        case Some(n) => Decode(if n == 0 then Trailers else Data(n), rest, rule)
    )
    case DataEnd => (
      match ReadLine(s, rule)
      case NoLine => Fail(UnexpectedEof)
      case Bad(f) => Fail(f)
      case Got(text, rest) => if text == [] then Decode(Size, rest, rule) else Fail(InvalidData)
    )
    case Trailers =>
      match ReadLine(s, rule)
      case NoLine => CLEAN
      case Bad(f) => Fail(f)
      case Got(text, rest) => if text == [] then CLEAN else Decode(Trailers, rest, rule)
  }

  /** Payload bytes taken from the front of a chunk are the front of its meaning. */
  lemma DataStep(left: nat, got: bytes, rest: bytes, rule: Rule)
    requires 0 < |got| <= left
    ensures Decode(Data(left), got + rest, rule)
         == Decode(if left == |got| then DataEnd else Data(left - |got|), rest, rule).After(got)
  {
    hide ParseSize, LineEnd;
    var s := got + rest;
    if left <= |s| {
      assert s[..left] == got + rest[..left - |got|];
      assert s[left..] == rest[left - |got|..];
      assert left == |got| ==> s[left..] == rest;
      var d := Decode(DataEnd, s[left..], rule);
      assert got + rest[..left - |got|] + d.payload == got + (rest[..left - |got|] + d.payload);
    }
  }

  // ----- when the two line rules give the same decoding

  /** The two line readers answer alike on `s`, however it is split. */
  predicate LineAgrees(s: bytes, capacity: nat) {
    if LineEnd(s) < |s| then IsShort(s) || IsTooLong(s, capacity) else |s| != MAX_SIZE_LINE + 1
  }

  /** The first line is short enough for both readers, or too long for both. */
  predicate IsShort(s: bytes) {
    LineEnd(s) < |s| && LineEnd(s) + 1 <= MAX_SIZE_LINE + 2
  }

  predicate IsTooLong(s: bytes, capacity: nat) {
    MAX_SIZE_LINE + 1 + capacity <= LineEnd(s) < |s|
  }

  /** Trailer lines that never end: no blank line before one too long for
  either reader. */
  predicate Endless(s: bytes, capacity: nat)
    decreases |s|
  {
    var e := LineEnd(s);
    if e == |s| then |s| > MAX_SIZE_LINE + 1
    else IsTooLong(s, capacity) || (Text(s, e) != [] && Endless(s[e + 1..], capacity))
  }

  /** The streams the two decoders agree on under every split, when the async
  one has a buffer of `capacity`. A framing line that only one of them may
  return is harmless only where it is an error for both: a bad size, a chunk
  that is not closed, or trailers that never end. */
  predicate Agreeable(st: State, s: bytes, capacity: nat)
    decreases |s|, st.Rank()
  {
    var e := LineEnd(s);
    match st
    case Done => true
    case Data(left) => |s| < left || Agreeable(DataEnd, s[left..], capacity)
    case Size =>
      if e == |s| then LineAgrees(s, capacity)
      else if IsTooLong(s, capacity) then true
      else (
        match ParseSize(Text(s, e))
        case None => true
        case Some(n) =>
          if IsShort(s) then Agreeable(if n == 0 then Trailers else Data(n), s[e + 1..], capacity)
          else n == 0 && Endless(s[e + 1..], capacity)
      )
    case DataEnd =>
      if e == |s| then LineAgrees(s, capacity) else Text(s, e) == [] ==> Agreeable(Size, s[e + 1..], capacity)
    case Trailers =>
      if e == |s| then LineAgrees(s, capacity)
      else if IsTooLong(s, capacity) then true
      else if IsShort(s) then Text(s, e) == [] || Agreeable(Trailers, s[e + 1..], capacity)
      else Endless(s[e + 1..], capacity)
  }

  lemma DataStepAgreeable(left: nat, got: bytes, rest: bytes, capacity: nat)
    requires capacity > 0
    requires 0 < |got| <= left
    ensures Agreeable(Data(left), got + rest, capacity)
       <==> Agreeable(if left == |got| then DataEnd else Data(left - |got|), rest, capacity)
  {
    hide ParseSize, LineEnd;
    if left <= |got + rest| {
      assert (got + rest)[left..] == rest[left - |got|..];
      assert left == |got| ==> (got + rest)[left..] == rest;
    }
  }

  /** The most lenient async line reader equals the blocking one exactly on `LineAgrees`. */
  lemma LineAgreesExactly(s: bytes, capacity: nat)
    requires capacity > 0
    ensures LineAgrees(s, capacity) <==> StrictLine(s) == LaxLine(s, capacity)
  {
  }

  /** Endless trailers fail the same way for both line readers. */
  lemma {:induction false} EndlessFails(s: bytes, capacity: nat)
    requires capacity > 0
    requires Endless(s, capacity)
    ensures Decode(Trailers, s, Strict) == Fail(InvalidData) && Agreeable(Trailers, s, capacity)
    decreases |s|
  {
    hide ParseSize;
    var e := LineEnd(s);
    if e < |s| && !IsTooLong(s, capacity) {
      EndlessFails(s[e + 1..], capacity);
    }
  }

  lemma {:induction false} EndlessExactly(s: bytes, capacity: nat)
    requires capacity > 0
    ensures Endless(s, capacity) <==> Decode(Trailers, s, Lenient(capacity)) == Fail(InvalidData)
    decreases |s|
  {
    hide ParseSize;
    var e := LineEnd(s);
    if e < |s| && !IsTooLong(s, capacity) {
      EndlessExactly(s[e + 1..], capacity);
    }
  }

  ghost predicate Exact(st: State, s: bytes, capacity: nat) {
    Agreeable(st, s, capacity) <==> Decode(st, s, Lenient(capacity)) == Decode(st, s, Strict)
  }

  lemma ExactData(left: nat, s: bytes, capacity: nat)
    requires capacity > 0
    requires left <= |s| ==> Exact(DataEnd, s[left..], capacity)
    ensures Exact(Data(left), s, capacity)
  {
    hide ParseSize, LineEnd;
    if left <= |s| {
      var a, b := Decode(DataEnd, s[left..], Lenient(capacity)), Decode(DataEnd, s[left..], Strict);
      assert a.After(s[..left]).payload[left..] == a.payload;
      assert b.After(s[..left]).payload[left..] == b.payload;
    }
  }

  lemma DataNotInvalid(left: nat, s: bytes, rule: Rule)
    ensures left > 0 ==> Decode(Data(left), s, rule) != Fail(InvalidData)
  {
    hide ParseSize, LineEnd;
  }

  /** A size line too long for the blocking decoder but good for the async one. */
  lemma ExactLongSize(s: bytes, n: nat, capacity: nat)
    requires capacity > 0
    requires LineEnd(s) < |s| && !LineAgrees(s, capacity) && ParseSize(Text(s, LineEnd(s))) == Some(n)
    ensures Exact(Size, s, capacity)
  {
    hide ParseSize, Endless, LineEnd, Text;
    var rest := s[LineEnd(s) + 1..];
    EndlessExactly(rest, capacity);
    DataNotInvalid(n, rest, Lenient(capacity));
    assert Decode(Size, s, Lenient(capacity)) == Decode(if n == 0 then Trailers else Data(n), rest, Lenient(capacity));
  }

  lemma ExactSize(s: bytes, capacity: nat)
    requires capacity > 0
    requires IsShort(s) ==>
      match ParseSize(Text(s, LineEnd(s)))
      case None => true
      case Some(n) => Exact(if n == 0 then Trailers else Data(n), s[LineEnd(s) + 1..], capacity)
    ensures Exact(Size, s, capacity)
  {
    hide ParseSize, Endless, LineEnd;
    if LineEnd(s) < |s| && !LineAgrees(s, capacity) && ParseSize(Text(s, LineEnd(s))).Some? {
      ExactLongSize(s, ParseSize(Text(s, LineEnd(s))).value, capacity);
    }
  }

  lemma LongTextNotEmpty(s: bytes)
    requires 2 <= LineEnd(s)
    ensures Text(s, LineEnd(s)) != []
  {
  }

  lemma DataEndNotBlank(s: bytes, capacity: nat)
    requires capacity > 0 && (LineEnd(s) == |s| || Text(s, LineEnd(s)) != [])
    ensures Exact(DataEnd, s, capacity)
  {
    hide ParseSize, Endless, LineEnd, Text;
  }

  lemma DataEndBlank(s: bytes, rule: Rule)
    requires LineEnd(s) < |s| && Text(s, LineEnd(s)) == []
    ensures Decode(DataEnd, s, rule) == Decode(Size, s[LineEnd(s) + 1..], rule)
  {
    if LineEnd(s) >= 2 {
      LongTextNotEmpty(s);
    }
    assert ReadLine(s, rule) == Got([], s[LineEnd(s) + 1..]);
    hide ParseSize, LineEnd, Text, ReadLine;
  }

  lemma ExactDataEnd(s: bytes, capacity: nat)
    requires capacity > 0
    requires LineEnd(s) < |s| && Text(s, LineEnd(s)) == [] ==> Exact(Size, s[LineEnd(s) + 1..], capacity)
    ensures Exact(DataEnd, s, capacity)
  {
    hide ParseSize, Endless, LineEnd, Text, Decode;
    if LineEnd(s) < |s| && Text(s, LineEnd(s)) == [] {
      DataEndBlank(s, Strict);
      DataEndBlank(s, Lenient(capacity));
    } else {
      DataEndNotBlank(s, capacity);
    }
  }

  lemma ExactTrailers(s: bytes, capacity: nat)
    requires capacity > 0
    requires IsShort(s) && Text(s, LineEnd(s)) != [] ==> Exact(Trailers, s[LineEnd(s) + 1..], capacity)
    ensures Exact(Trailers, s, capacity)
  {
    hide ParseSize, Endless, LineEnd;
    if LineEnd(s) < |s| && !LineAgrees(s, capacity) {
      EndlessExactly(s[LineEnd(s) + 1..], capacity);
    }
  }

  /** Main result: the most lenient decoding gives the blocking decoder's
  payload and outcome exactly on the agreeable streams. */
  lemma {:induction false} AgreeableExactly(st: State, s: bytes, capacity: nat)
    requires capacity > 0
    ensures Agreeable(st, s, capacity) <==> Decode(st, s, Lenient(capacity)) == Decode(st, s, Strict)
    decreases |s|, st.Rank()
  {
    hide LineEnd, Text, ParseSize, Endless;
    var e := LineEnd(s);
    match st
    case Done =>
    case Data(left) =>
      hide Decode, Agreeable, IsShort;
      if left <= |s| {
        AgreeableExactly(DataEnd, s[left..], capacity);
      }
      ExactData(left, s, capacity);
    case Size =>
      hide Decode, Agreeable, IsShort;
      if IsShort(s) && ParseSize(Text(s, e)).Some? {
        var n := ParseSize(Text(s, e)).value;
        AgreeableExactly(if n == 0 then Trailers else Data(n), s[e + 1..], capacity);
      }
      ExactSize(s, capacity);
    case DataEnd =>
      hide Decode, Agreeable, IsShort;
      if e < |s| && Text(s, e) == [] {
        AgreeableExactly(Size, s[e + 1..], capacity);
      }
      ExactDataEnd(s, capacity);
    case Trailers =>
      hide Decode, Agreeable, IsShort;
      if IsShort(s) && Text(s, e) != [] {
        AgreeableExactly(Trailers, s[e + 1..], capacity);
      }
      ExactTrailers(s, capacity);
  }

  /** Every stream the blocking decoder accepts is agreeable. */
  lemma {:induction false} CleanIsAgreeable(st: State, s: bytes, capacity: nat)
    requires capacity > 0
    requires Decode(st, s, Strict).outcome == Clean
    ensures Agreeable(st, s, capacity)
    decreases |s|, st.Rank()
  {
    hide ParseSize, LineEnd, Endless;
    var e := LineEnd(s);
    match st
    case Done =>
    case Data(left) => CleanIsAgreeable(DataEnd, s[left..], capacity);
    case Size =>
      if s != [] {
        var n := ParseSize(Text(s, e)).value;
        CleanIsAgreeable(if n == 0 then Trailers else Data(n), s[e + 1..], capacity);
      }
    case DataEnd => CleanIsAgreeable(Size, s[e + 1..], capacity);
    case Trailers =>
      if s != [] && Text(s, e) != [] {
        CleanIsAgreeable(Trailers, s[e + 1..], capacity);
      }
  }

  /** No framing line is over 1026 bytes with its LF, and an unterminated one
  is at most 1024. */
  predicate ShortLines(st: State, s: bytes)
    decreases |s|, st.Rank()
  {
    var e := LineEnd(s);
    var short := if e < |s| then e + 1 <= MAX_SIZE_LINE + 2 else |s| <= MAX_SIZE_LINE;
    match st
    case Done => true
    case Data(left) => |s| < left || ShortLines(DataEnd, s[left..])
    case Size => short && (e < |s| ==>
      match ParseSize(Text(s, e))
      case None => true
      case Some(n) => ShortLines(if n == 0 then Trailers else Data(n), s[e + 1..]))
    case DataEnd => short && (e < |s| && Text(s, e) == [] ==> ShortLines(Size, s[e + 1..]))
    case Trailers => short && (e < |s| && Text(s, e) != [] ==> ShortLines(Trailers, s[e + 1..]))
  }

  lemma {:induction false} ShortLinesAgree(st: State, s: bytes, capacity: nat)
    requires capacity > 0
    requires ShortLines(st, s)
    ensures Agreeable(st, s, capacity)
    decreases |s|, st.Rank()
  {
    hide ParseSize;
    var e := LineEnd(s);
    match st
    case Done =>
    case Data(left) =>
      if left <= |s| {
        ShortLinesAgree(DataEnd, s[left..], capacity);
      }
    case Size =>
      if e < |s| && ParseSize(Text(s, e)).Some? {
        var n := ParseSize(Text(s, e)).value;
        ShortLinesAgree(if n == 0 then Trailers else Data(n), s[e + 1..], capacity);
      }
    case DataEnd =>
      if e < |s| && Text(s, e) == [] {
        ShortLinesAgree(Size, s[e + 1..], capacity);
      }
    case Trailers =>
      if e < |s| && Text(s, e) != [] {
        ShortLinesAgree(Trailers, s[e + 1..], capacity);
      }
  }

  /** A stream on which the decoders never agree: 1025 digits and a close. */
  lemma UnterminatedTailDisagrees(s: bytes, capacity: nat)
    requires capacity > 0
    requires |s| == MAX_SIZE_LINE + 1
    requires forall i :: 0 <= i < |s| ==> s[i] == 49
    ensures Decode(Size, s, Strict) == Fail(InvalidData)
    ensures Decode(Size, s, Lenient(capacity)) == Fail(UnexpectedEof)
  {
    LineEndIs(s, |s|);
  }
}
