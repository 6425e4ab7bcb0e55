/** The chunked grammar, written as a printer, and its match with `Decode`:
a clean decoding exists exactly for the streams the grammar prints. */
module ChunkedGrammar {
  import opened Bytes
  import opened ChunkedSpec
  import opened SizeLines

  /** One framing line with its terminator, as long as the decoder allows. */
  predicate IsLine(line: bytes) {
    && 0 < |line| <= MAX_SIZE_LINE + 2
    && LineEnd(line) == |line| - 1
  }

  function LineText(line: bytes): bytes
    requires IsLine(line)
  {
    Text(line, |line| - 1)
  }

  predicate IsBlank(line: bytes) {
    line == [LF] || line == [CR, LF]
  }

  /** A size line: white space, an optional plus, hex digits worth `n`, white
  space and an extension. */
  ghost predicate IsSizeLine(line: bytes, n: nat) {
    IsLine(line) && exists parts: SizeParts :: parts.Says(n) && LineText(line) == parts.Print()
  }

  lemma SizeLineParses(line: bytes, n: nat)
    ensures IsSizeLine(line, n) <==> IsLine(line) && ParseSize(LineText(line)) == Some(n)
  {
    if IsLine(line) {
      ParseSizeExactly(LineText(line), n);
    }
  }

  datatype Chunk = Chunk(sizeLine: bytes, data: bytes, close: bytes) {
    ghost predicate Valid() {
      && IsSizeLine(sizeLine, |data|)
      && data != []
      && IsBlank(close)
    }

    function Print(): bytes {
      sizeLine + data + close
    }
  }

  /** How a clean stream stops: the connection closes between chunks, closes
  among the trailers, or a blank line ends the trailers. */
  datatype Ending =
    | Closed
    | Cut(zeroLine: bytes, trailers: seq<bytes>)
    | Terminated(zeroLine: bytes, trailers: seq<bytes>, blank: bytes, ignored: bytes)
  {
    ghost predicate Valid() {
      match this
      case Closed => true
      case Cut(zero, trailers) => IsSizeLine(zero, 0) && AreTrailers(trailers)
      case Terminated(zero, trailers, blank, _) => IsSizeLine(zero, 0) && AreTrailers(trailers) && IsBlank(blank)
    }

    function Print(): bytes {
      match this
      case Closed => []
      case Cut(zero, trailers) => zero + Flatten(trailers)
      case Terminated(zero, trailers, blank, ignored) => zero + (Flatten(trailers) + (blank + ignored))
    }
  }

  predicate AreTrailers(lines: seq<bytes>) {
    forall i :: 0 <= i < |lines| ==> IsLine(lines[i]) && LineText(lines[i]) != []
  }

  ghost predicate AreChunks(chunks: seq<Chunk>) {
    forall i :: 0 <= i < |chunks| ==> chunks[i].Valid()
  }

  function PrintChunks(chunks: seq<Chunk>): bytes {
    if chunks == [] then [] else chunks[0].Print() + PrintChunks(chunks[1..])
  }

  function Payload(chunks: seq<Chunk>): bytes {
    if chunks == [] then [] else chunks[0].data + Payload(chunks[1..])
  }

  // ----- every printed stream decodes to its payload

  lemma ReadPrinted(line: bytes, rest: bytes)
    requires IsLine(line)
    ensures StrictLine(line + rest) == Got(LineText(line), rest)
  {
    var s := line + rest;
    LineEndIs(s, |line| - 1);
    assert s[..|line| - 1] == line[..|line| - 1];
    assert |line| > 1 ==> s[..|line| - 2] == line[..|line| - 2];
    assert s[|line|..] == rest;
  }

  lemma BlankIsLine(line: bytes)
    requires IsBlank(line)
    ensures IsLine(line) && LineText(line) == []
  {
    LineEndIs(line, |line| - 1);
  }

  lemma DecodeData(data: bytes, close: bytes, rest: bytes)
    requires IsBlank(close)
    ensures Decode(Data(|data|), data + (close + rest), Strict) == Decode(Size, rest, Strict).After(data)
  {
    hide ParseSize;
    var body := data + (close + rest);
    BlankIsLine(close);
    ReadPrinted(close, rest);
    assert body[|data|..] == close + rest && body[..|data|] == data;
  }

  /** Reading one whole chunk delivers its data. */
  lemma DecodeChunk(c: Chunk, rest: bytes)
    requires c.Valid()
    ensures Decode(Size, c.Print() + rest, Strict) == Decode(Size, rest, Strict).After(c.data)
  {
    SizeLineParses(c.sizeLine, |c.data|);
    hide ParseSize, IsSizeLine, StrictLine, LineEnd, Text, Decode;
    var body := c.data + (c.close + rest);
    PrintedFront(c, rest);
    DecodeData(c.data, c.close, rest);
    SizeLineDecodes(c.sizeLine, body, |c.data|);
  }

  lemma PrintedFront(c: Chunk, rest: bytes)
    ensures c.Print() + rest == c.sizeLine + (c.data + (c.close + rest))
  {
    Regroup(c.sizeLine + c.data, c.close, rest);
    Regroup(c.sizeLine, c.data, c.close + rest);
  }

  /** Past its size line a chunk decodes as its data. */
  lemma SizeLineDecodes(line: bytes, body: bytes, n: nat)
    requires IsLine(line) && ParseSize(LineText(line)) == Some(n) && n > 0
    ensures Decode(Size, line + body, Strict) == Decode(Data(n), body, Strict)
  {
    hide ParseSize, StrictLine, LineEnd, Text;
    ReadPrinted(line, body);
  }

  /** Whole chunks in front of a stream put their payload in front of its decoding. */
  lemma {:induction false} DecodeChunks(chunks: seq<Chunk>, rest: bytes)
    requires AreChunks(chunks)
    ensures Decode(Size, PrintChunks(chunks) + rest, Strict)
         == Decode(Size, rest, Strict).After(Payload(chunks))
  {
    hide ParseSize;
    if chunks == [] {
      assert PrintChunks(chunks) + rest == rest;
    } else {
      var more := PrintChunks(chunks[1..]) + rest;
      var first := chunks[0].Print();
      Regroup(first, PrintChunks(chunks[1..]), rest);
      DecodeChunks(chunks[1..], rest);
      DecodeChunk(chunks[0], more);
      AfterTwice(Decode(Size, rest, Strict), chunks[0].data, Payload(chunks[1..]));
    }
  }

  lemma {:induction false} DecodeTrailers(trailers: seq<bytes>, rest: bytes)
    requires AreTrailers(trailers)
    requires Decode(Trailers, rest, Strict) == CLEAN
    ensures Decode(Trailers, Flatten(trailers) + rest, Strict) == CLEAN
  {
    hide ParseSize, StrictLine, LineEnd, Text;
    if trailers == [] {
      assert Flatten(trailers) + rest == rest;
    } else {
      var more := Flatten(trailers[1..]) + rest;
      assert Flatten(trailers) + rest == trailers[0] + more;
      ReadPrinted(trailers[0], more);
      DecodeTrailers(trailers[1..], rest);
    }
  }

  lemma DecodeEnding(ending: Ending)
    requires ending.Valid()
    ensures Decode(Size, ending.Print(), Strict) == CLEAN
  {
    hide ParseSize, IsSizeLine;
    match ending
    case Closed =>
    case Cut(zero, trailers) =>
      SizeLineParses(zero, 0);
      DecodeTrailers(trailers, []);
      assert Flatten(trailers) + [] == Flatten(trailers);
      ReadPrinted(zero, Flatten(trailers));
    case Terminated(zero, trailers, blank, ignored) =>
      SizeLineParses(zero, 0);
      BlankIsLine(blank);
      ReadPrinted(blank, ignored);
      DecodeTrailers(trailers, blank + ignored);
      ReadPrinted(zero, Flatten(trailers) + (blank + ignored));
  }

  /** Completeness: a printed stream decodes to its payload and ends cleanly,
  whatever follows the terminator. */
  lemma DecodePrinted(chunks: seq<Chunk>, ending: Ending)
    requires AreChunks(chunks) && ending.Valid()
    ensures Decode(Size, PrintChunks(chunks) + ending.Print(), Strict) == Decoded(Payload(chunks), Clean)
  {
    DecodeChunks(chunks, ending.Print());
    DecodeEnding(ending);
    assert CLEAN.After(Payload(chunks)) == Decoded(Payload(chunks), Clean);
  }

  // ----- every clean decoding comes from a printed stream

  /** What the strict reader took was one framing line. */
  lemma GotLine(s: bytes, line: bytes)
    requires StrictLine(s).Got?
    requires line == s[..LineEnd(s) + 1]
    ensures IsLine(line) && LineText(line) == StrictLine(s).text
    ensures s == line + StrictLine(s).rest
  {
    var e := LineEnd(s);
    LineEndIs(line, e);
    assert line[..e] == s[..e];
    if e > 0 {
      assert line[..e - 1] == s[..e - 1];
    }
  }

  lemma EmptyTextIsBlank(line: bytes)
    requires IsLine(line) && LineText(line) == []
    ensures IsBlank(line)
  {
    if |line| > 1 {
      assert line == [CR, LF];
    }
  }

  lemma {:induction false} CleanTrailersParse(s: bytes)
    returns (trailers: seq<bytes>, blank: Option<bytes>, ignored: bytes)
    requires Decode(Trailers, s, Strict) == CLEAN
    ensures AreTrailers(trailers)
    ensures blank.None? ==> s == Flatten(trailers)
    ensures blank.Some? ==> IsBlank(blank.value) && s == Flatten(trailers) + (blank.value + ignored)
    decreases |s|
  {
    trailers, blank, ignored := [], None, [];
    if s != [] {
      var line, rest := CleanTrailerTaken(s);
      if LineText(line) == [] {
        EmptyTextIsBlank(line);
        blank, ignored := Some(line), rest;
        hide Decode, IsLine, Text, IsBlank;
      } else {
        hide Decode, IsLine, Text, IsBlank;
        var more;
        more, blank, ignored := CleanTrailersParse(rest);
        trailers := [line] + more;
        TrailerInFront(line, more, if blank.Some? then blank.value + ignored else []);
      }
    }
  }

  lemma CleanTrailerTaken(s: bytes) returns (line: bytes, rest: bytes)
    requires Decode(Trailers, s, Strict) == CLEAN && s != []
    ensures IsLine(line) && s == line + rest && |rest| < |s|
    ensures LineText(line) != [] ==> Decode(Trailers, rest, Strict) == CLEAN
  {
    hide ParseSize;
    line, rest := s[..LineEnd(s) + 1], StrictLine(s).rest;
    GotLine(s, line);
  }

  lemma TrailerInFront(line: bytes, more: seq<bytes>, rest: bytes)
    ensures line + (Flatten(more) + rest) == Flatten([line] + more) + rest
    ensures line + Flatten(more) == Flatten([line] + more)
    ensures IsLine(line) && LineText(line) != [] && AreTrailers(more) ==> AreTrailers([line] + more)
  {
    hide IsLine, Text;
    var trailers := [line] + more;
    assert trailers[1..] == more;
    Regroup(line, Flatten(more), rest);
  }

  /** Soundness: a clean decoding of an arbitrary stream has a parse, and its
  payload is the parse's payload. */
  lemma {:induction false} CleanParses(s: bytes, p: bytes) returns (chunks: seq<Chunk>, ending: Ending)
    requires Decode(Size, s, Strict) == Decoded(p, Clean)
    ensures AreChunks(chunks) && ending.Valid()
    ensures s == PrintChunks(chunks) + ending.Print() && p == Payload(chunks)
    decreases |s|
  {
    hide ParseSize, IsSizeLine;
    if s == [] {
      return [], Closed;
    }
    var line, rest := s[..LineEnd(s) + 1], StrictLine(s).rest;
    GotLine(s, line);
    var n := ParseSize(LineText(line)).value;
    SizeLineParses(line, n);
    if n == 0 {
      CleanTrailersHaveNoPayload(rest);
      ending := CleanZeroParses(line, rest);
      chunks := [];
      assert PrintChunks(chunks) + ending.Print() == ending.Print();
    } else {
      var close, after := CleanChunkParses(rest, n, p);
      var more;
      more, ending := CleanParses(after, p[n..]);
      var c := Chunk(line, rest[..n], close);
      chunks := [c] + more;
      assert chunks[1..] == more;
      PrintedChunk(s, c, after, PrintChunks(more), ending.Print());
    }
  }

  lemma {:induction false} CleanTrailersHaveNoPayload(s: bytes)
    ensures Decode(Trailers, s, Strict).payload == []
    decreases |s|
  {
    hide ParseSize;
    if StrictLine(s).Got? {
      CleanTrailersHaveNoPayload(StrictLine(s).rest);
    }
  }

  lemma CleanZeroParses(line: bytes, rest: bytes) returns (ending: Ending)
    requires IsSizeLine(line, 0) && Decode(Trailers, rest, Strict) == CLEAN
    ensures ending.Valid() && ending.Print() == line + rest
  {
    var trailers, blank, ignored := CleanTrailersParse(rest);
    ending := if blank.None? then Cut(line, trailers) else Terminated(line, trailers, blank.value, ignored);
  }

  lemma PrintedChunk(s: bytes, c: Chunk, after: bytes, chunks: bytes, ending: bytes)
    requires s == c.sizeLine + (c.data + (c.close + after)) && after == chunks + ending
    ensures s == (c.Print() + chunks) + ending
  {
    Regroup(c.sizeLine, c.data, c.close + after);
    Regroup(c.sizeLine + c.data, c.close, after);
    Regroup(c.Print(), chunks, ending);
  }

  lemma CleanChunkParses(rest: bytes, n: nat, p: bytes) returns (close: bytes, after: bytes)
    requires Decode(Data(n), rest, Strict) == Decoded(p, Clean)
    ensures n <= |rest| && IsBlank(close) && rest == rest[..n] + (close + after)
    ensures n <= |p| && p[..n] == rest[..n]
    ensures Decode(Size, after, Strict) == Decoded(p[n..], Clean)
  {
    hide ParseSize;
    var tail := rest[n..];
    close, after := tail[..LineEnd(tail) + 1], StrictLine(tail).rest;
    GotLine(tail, close);
    EmptyTextIsBlank(close);
    var d := Decode(Size, after, Strict);
    assert p == rest[..n] + d.payload;
  }

  ghost predicate Prints(s: bytes, p: bytes, chunks: seq<Chunk>, ending: Ending) {
    && AreChunks(chunks) && ending.Valid()
    && s == PrintChunks(chunks) + ending.Print() && p == Payload(chunks)
  }

  /** Main result: the decoder ends cleanly with payload `p` exactly on the
  streams the grammar prints with payload `p`. */
  lemma CleanExactlyGrammar(s: bytes, p: bytes)
    ensures Decode(Size, s, Strict) == Decoded(p, Clean)
       <==> exists chunks, ending :: Prints(s, p, chunks, ending)
  {
    if Decode(Size, s, Strict) == Decoded(p, Clean) {
      var chunks, ending := CleanParses(s, p);
      assert Prints(s, p, chunks, ending);
    }
    forall chunks, ending | Prints(s, p, chunks, ending)
      ensures Decode(Size, s, Strict) == Decoded(p, Clean)
    {
      DecodePrinted(chunks, ending);
    }
  }

  // ----- truncated streams

  /** A close among a chunk's data or in its closing line. */
  lemma CloseInsideData(data: bytes, close: bytes, body: bytes)
    requires data != [] && IsBlank(close)
    requires |body| < |data + close| && body == (data + close)[..|body|]
    ensures Decode(Data(|data|), body, Strict)
         == Decoded(data[..Min(|body|, |data|)], Failed(UnexpectedEof))
  {
    hide ParseSize;
    if |body| < |data| {
      assert body == data[..|body|];
    } else {
      var tail := body[|data|..];
      assert body[..|data|] == data;
      assert tail == [] || tail == [CR];
      assert Decode(DataEnd, tail, Strict) == Fail(UnexpectedEof);
      assert data[..|data|] == data + [];
    }
  }

  /** A close inside a size line: too long already for the decoder at 1025 bytes. */
  lemma CloseInsideSizeLine(line: bytes, cut: nat)
    requires IsLine(line) && 0 < cut < |line|
    ensures Decode(Size, line[..cut], Strict) == Fail(if cut <= MAX_SIZE_LINE then UnexpectedEof else InvalidData)
  {
    LineEndIs(line[..cut], cut);
  }

  /** A close anywhere inside a chunk, its size line and closing line included,
  is UnexpectedEof, but for a size line cut at 1025 bytes; the payload bytes
  that did arrive are delivered first. */
  lemma CloseInsideChunk(chunks: seq<Chunk>, c: Chunk, cut: nat)
    requires AreChunks(chunks) && c.Valid()
    requires 0 < cut < |c.Print()|
    ensures Decode(Size, PrintChunks(chunks) + c.Print()[..cut], Strict)
         == Decoded(Payload(chunks) + c.data[..Max(0, Min(cut - |c.sizeLine|, |c.data|))],
                    Failed(if MAX_SIZE_LINE < cut < |c.sizeLine| then InvalidData else UnexpectedEof))
  {
    SizeLineParses(c.sizeLine, |c.data|);
    hide ParseSize, IsSizeLine, StrictLine, LineEnd, Text, Decode;
    if cut < |c.sizeLine| {
      var part := c.sizeLine[..cut];
      CutPrinted(c, cut);
      CloseInsideSizeLine(c.sizeLine, cut);
      DecodeChunks(chunks, part);
    } else {
      var body := (c.data + c.close)[..cut - |c.sizeLine|];
      var part := c.sizeLine + body;
      CutPrinted(c, cut);
      SizeLineDecodes(c.sizeLine, body, |c.data|);
      CloseInsideData(c.data, c.close, body);
      DecodeChunks(chunks, part);
    }
  }

  lemma CutPrinted(c: Chunk, cut: nat)
    requires cut < |c.Print()|
    ensures c.Print()[..cut] == if cut < |c.sizeLine| then c.sizeLine[..cut]
                                else c.sizeLine + (c.data + c.close)[..cut - |c.sizeLine|]
  {
    assert c.Print() == c.sizeLine + (c.data + c.close);
  }

  // ----- the box's own framing

  function HexChar(d: nat, upper: bool): byte
    requires d < 16
  {
    if d < 10 then 48 + d else if upper then 55 + d else 87 + d
  }

  function Hex(n: nat, upper: bool): bytes {
    (if n < 16 then [] else Hex(n / 16, upper)) + [HexChar(n % 16, upper)]
  }

  lemma {:induction false} HexDigitsOnly(n: nat, upper: bool)
    ensures Hex(n, upper) != []
    ensures forall i :: 0 <= i < |Hex(n, upper)| ==> HexDigit(Hex(n, upper)[i]).Some?
    ensures LF !in Hex(n, upper) && Hex(n, upper)[|Hex(n, upper)| - 1] != CR
  {
    if n >= 16 {
      HexDigitsOnly(n / 16, upper);
    }
  }

  lemma {:induction false} HexIsWorth(n: nat, upper: bool)
    ensures Worth(Hex(n, upper)) == n
  {
    var ds, low := Hex(n, upper), HexChar(n % 16, upper);
    assert HexDigit(low) == Some(n % 16) && ds[|ds| - 1] == low;
    hide HexDigit, HexChar;
    if n < 16 {
      assert ds[..|ds| - 1] == [];
    } else {
      HexIsWorth(n / 16, upper);
      assert ds[..|ds| - 1] == Hex(n / 16, upper);
      hide Hex;
    }
  }

  /** A size in hex, of either case, with any extension, reads back as itself. */
  lemma SizeRoundTrip(n: nat, upper: bool, extension: bytes)
    requires n < SIZE_LIMIT
    requires extension == [] || extension[0] == SEMICOLON
    ensures ParseSize(Hex(n, upper) + extension) == Some(n)
  {
    var parts := SizeParts([], false, Hex(n, upper), [], extension);
    HexDigitsOnly(n, upper);
    HexIsWorth(n, upper);
    hide Hex, Worth, HexDigit, ParseSize;
    SizePrints(parts, n);
    assert parts.Print() == Hex(n, upper) + extension;
  }

  /** How a sender writes one chunk. */
  datatype Style = Style(upper: bool, extension: bytes, sizeEol: bytes, closeEol: bytes) {
    predicate Valid() {
      && (extension == [] || extension[0] == SEMICOLON)
      && LF !in extension
      && IsBlank(sizeEol) && IsBlank(closeEol)
    }
  }

  function SizeLine(n: nat, style: Style): bytes {
    Hex(n, style.upper) + style.extension + style.sizeEol
  }

  /** A line's text is a size and an extension, whichever terminator it has:
  a CR at the end of an extension goes with the terminator. */
  lemma SizeLineText(digits: bytes, extension: bytes, eol: bytes) returns (kept: bytes)
    requires digits != [] && digits[|digits| - 1] != CR && LF !in digits && LF !in extension
    requires extension == [] || extension[0] == SEMICOLON
    requires IsBlank(eol)
    ensures var line := digits + extension + eol;
      LineEnd(line) == |line| - 1 && Text(line, |line| - 1) == digits + kept
    ensures kept == [] || kept[0] == SEMICOLON
  {
    var text := digits + extension;
    var line := text + eol;
    assert LF !in text;
    assert forall i :: 0 <= i < |text| ==> line[i] == text[i];
    LineEndIs(line, |line| - 1);
    kept := extension;
    if eol == [CR, LF] {
      assert line[..|line| - 2] == text;
    } else {
      assert line[..|line| - 1] == text;
      if extension != [] && extension[|extension| - 1] == CR {
        kept := extension[..|extension| - 1];
        assert line[..|line| - 2] == digits + kept;
      }
    }
  }

  /** Every size below 2^64 in every style is a legal size line, while it
  stays within the length limit. */
  lemma SizeLineReads(n: nat, style: Style)
    requires n < SIZE_LIMIT && style.Valid() && |SizeLine(n, style)| <= MAX_SIZE_LINE + 2
    ensures IsSizeLine(SizeLine(n, style), n) && ParseSize(LineText(SizeLine(n, style))) == Some(n)
  {
    var ds := Hex(n, style.upper);
    hide Hex, ParseSize, LineEnd, HexDigit;
    HexDigitsOnly(n, style.upper);
    var kept := SizeLineText(ds, style.extension, style.sizeEol);
    SizeRoundTrip(n, style.upper, kept);
    SizeLineParses(SizeLine(n, style), n);
    hide IsSizeLine, Text;
  }

  function Encode(payloads: seq<bytes>, styles: seq<Style>): seq<Chunk>
    requires |styles| == |payloads|
  {
    seq(|payloads|, i requires 0 <= i < |payloads| =>
      Chunk(SizeLine(|payloads[i]|, styles[i]), payloads[i], styles[i].closeEol))
  }

  lemma {:induction false} PayloadOf(chunks: seq<Chunk>, payloads: seq<bytes>)
    requires |chunks| == |payloads|
    requires forall i :: 0 <= i < |chunks| ==> chunks[i].data == payloads[i]
    ensures Payload(chunks) == Flatten(payloads)
  {
    if chunks != [] {
      PayloadOf(chunks[1..], payloads[1..]);
    }
  }

  /** Round trip: any non-empty chunks below 2^64 bytes, each in its own
  style, then a zero chunk and trailers, decode to the payloads joined. */
  lemma RoundTrip(payloads: seq<bytes>, styles: seq<Style>, last: Style,
                  trailers: seq<bytes>, blank: bytes, ignored: bytes)
    requires |styles| == |payloads|
    requires last.Valid() && |SizeLine(0, last)| <= MAX_SIZE_LINE + 2
    requires forall i :: 0 <= i < |payloads| ==>
      && styles[i].Valid() && 0 < |payloads[i]| < SIZE_LIMIT
      && |SizeLine(|payloads[i]|, styles[i])| <= MAX_SIZE_LINE + 2
    requires AreTrailers(trailers) && IsBlank(blank)
    ensures Decode(Size,
        PrintChunks(Encode(payloads, styles)) + Terminated(SizeLine(0, last), trailers, blank, ignored).Print(),
        Strict)
      == Decoded(Flatten(payloads), Clean)
  {
    hide SizeLine, IsSizeLine, Decode;
    var chunks := Encode(payloads, styles);
    forall i | 0 <= i < |chunks| ensures chunks[i].Valid() {
      SizeLineReads(|payloads[i]|, styles[i]);
    }
    SizeLineReads(0, last);
    DecodePrinted(chunks, Terminated(SizeLine(0, last), trailers, blank, ignored));
    PayloadOf(chunks, payloads);
  }
}
