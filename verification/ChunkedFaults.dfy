/** The streams that fail to decode (src/chunked.rs): each is whole chunks and
one breach of the grammar, and the breach decides the fault. */
module ChunkedFaults {
  import opened Bytes
  import opened ChunkedSpec
  import opened SizeLines
  import opened ChunkedGrammar

  /** No line ends within 1026 bytes, or before the close. */
  predicate IsBroken(tail: bytes) {
    tail != [] && forall i :: 0 <= i < Min(1026, |tail|) ==> tail[i] != 10
  }

  function BrokenFault(tail: bytes): Fault {
    if |tail| > 1024 then InvalidData else UnexpectedEof
  }

  datatype Breach =
    | BrokenSize(tail: bytes)
    | NoSize(line: bytes, rest: bytes)
    | ShortData(sizeLine: bytes, n: nat, data: bytes)
    | BrokenClose(sizeLine: bytes, data: bytes, tail: bytes)
    | BadClose(sizeLine: bytes, data: bytes, line: bytes, rest: bytes)
    | BrokenTrailer(zeroLine: bytes, trailers: seq<bytes>, tail: bytes)
  {
    ghost predicate Valid() {
      match this
      case BrokenSize(tail) => IsBroken(tail)
      case NoSize(line, _) => IsLine(line) && forall n :: !IsSizeLine(line, n)
      case ShortData(sizeLine, n, data) => IsSizeLine(sizeLine, n) && |data| < n
      case BrokenClose(sizeLine, data, tail) =>
        IsSizeLine(sizeLine, |data|) && data != [] && (tail == [] || IsBroken(tail))
      case BadClose(sizeLine, data, line, _) =>
        IsSizeLine(sizeLine, |data|) && data != [] && IsLine(line) && !IsBlank(line)
      case BrokenTrailer(zeroLine, trailers, tail) =>
        IsSizeLine(zeroLine, 0) && AreTrailers(trailers) && IsBroken(tail)
    }

    function Print(): bytes {
      match this
      case BrokenSize(tail) => tail
      case NoSize(line, rest) => line + rest
      case ShortData(sizeLine, _, data) => sizeLine + data
      case BrokenClose(sizeLine, data, tail) => sizeLine + (data + tail)
      case BadClose(sizeLine, data, line, rest) => sizeLine + (data + (line + rest))
      case BrokenTrailer(zeroLine, trailers, tail) => zeroLine + (Flatten(trailers) + tail)
    }

    /** What is delivered of a chunk that is breached. */
    function Payload(): bytes {
      if ShortData? || BrokenClose? || BadClose? then data else []
    }

    function Fault(): Fault {
      match this
      case NoSize(_, _) => InvalidData
      case BadClose(_, _, _, _) => InvalidData
      case ShortData(_, _, _) => UnexpectedEof
      case _ => BrokenFault(tail)
    }
  }

  lemma BrokenLine(tail: bytes)
    ensures IsBroken(tail) <==> StrictLine(tail).Bad?
    ensures IsBroken(tail) ==> StrictLine(tail) == Bad(BrokenFault(tail))
  {
  }

  /** A breach decodes to what it delivers and its fault. */
  lemma BreachDecodes(b: Breach)
    requires b.Valid()
    ensures Decode(Size, b.Print(), Strict) == Decoded(b.Payload(), Failed(b.Fault()))
  {
    hide ParseSize, IsSizeLine, StrictLine, LineEnd, Text, IsBroken, IsLine;
    match b
    case BrokenSize(tail) => BrokenLine(tail);
    case NoSize(line, rest) => NoSizeDecodes(line, rest);
    case ShortData(sizeLine, n, data) =>
      SizeLineParses(sizeLine, n);
      SizeLineDecodes(sizeLine, data, n);
    case BrokenClose(sizeLine, data, tail) =>
      SizeLineParses(sizeLine, |data|);
      SizeLineDecodes(sizeLine, data + tail, |data|);
      BrokenLine(tail);
      NothingIsNoLine();
      CloseDecodes(data, tail, b.Fault());
    case BadClose(sizeLine, data, line, rest) =>
      SizeLineParses(sizeLine, |data|);
      SizeLineDecodes(sizeLine, data + (line + rest), |data|);
      BadCloseDecodes(line, rest);
      CloseDecodes(data, line + rest, InvalidData);
    case BrokenTrailer(zeroLine, trailers, tail) =>
      BrokenTrailersDecode(trailers, tail);
      ZeroDecodes(zeroLine, Flatten(trailers) + tail);
  }

  lemma NothingIsNoLine()
    ensures StrictLine([]) == NoLine
  {
  }

  lemma NoSizeDecodes(line: bytes, rest: bytes)
    requires IsLine(line) && forall n :: !IsSizeLine(line, n)
    ensures Decode(Size, line + rest, Strict) == Fail(InvalidData)
  {
    hide ParseSize, IsSizeLine, StrictLine, LineEnd, Text;
    ReadPrinted(line, rest);
    if ParseSize(LineText(line)).Some? {
      SizeLineParses(line, ParseSize(LineText(line)).value);
    }
  }

  /** What follows a chunk's data fails after the data. */
  lemma CloseDecodes(data: bytes, tail: bytes, fault: Fault)
    requires data != [] && Decode(DataEnd, tail, Strict) == Fail(fault)
    ensures Decode(Data(|data|), data + tail, Strict) == Decoded(data, Failed(fault))
  {
    hide ParseSize, StrictLine;
    assert (data + tail)[|data|..] == tail && (data + tail)[..|data|] == data && data + [] == data;
  }

  lemma BadCloseDecodes(line: bytes, rest: bytes)
    requires IsLine(line) && !IsBlank(line)
    ensures Decode(DataEnd, line + rest, Strict) == Fail(InvalidData)
  {
    ReadPrinted(line, rest);
    if LineText(line) == [] {
      EmptyTextIsBlank(line);
    }
    hide ParseSize, StrictLine, LineEnd, Text;
  }

  lemma ZeroDecodes(zeroLine: bytes, body: bytes)
    requires IsSizeLine(zeroLine, 0)
    ensures Decode(Size, zeroLine + body, Strict) == Decode(Trailers, body, Strict)
  {
    SizeLineParses(zeroLine, 0);
    hide ParseSize, StrictLine, LineEnd, Text, IsSizeLine;
    ReadPrinted(zeroLine, body);
  }

  lemma {:induction false} BrokenTrailersDecode(trailers: seq<bytes>, tail: bytes)
    requires AreTrailers(trailers) && IsBroken(tail)
    ensures Decode(Trailers, Flatten(trailers) + tail, Strict) == Fail(BrokenFault(tail))
  {
    hide ParseSize, StrictLine, LineEnd, Text, IsBroken;
    if trailers == [] {
      assert Flatten(trailers) + tail == tail;
      BrokenLine(tail);
    } else {
      var more := Flatten(trailers[1..]) + tail;
      assert Flatten(trailers) + tail == trailers[0] + more;
      ReadPrinted(trailers[0], more);
      BrokenTrailersDecode(trailers[1..], tail);
    }
  }

  // ----- every failure has a breach

  lemma {:induction false} TrailersBreak(s: bytes, d: Decoded) returns (trailers: seq<bytes>, tail: bytes)
    requires d == Decode(Trailers, s, Strict) && d.outcome.Failed?
    ensures AreTrailers(trailers) && IsBroken(tail) && s == Flatten(trailers) + tail
    ensures d == Fail(BrokenFault(tail))
    decreases |s|
  {
    BrokenLine(s);
    if StrictLine(s).Bad? {
      trailers, tail := [], s;
      assert Flatten([]) + s == s;
    } else {
      var line, rest := TrailerTaken(s, d);
      var more;
      more, tail := TrailersBreak(rest, d);
      trailers := [line] + more;
      TrailerInFront(line, more, tail);
    }
    hide StrictLine, IsBroken, Decode;
  }

  lemma TrailerTaken(s: bytes, d: Decoded) returns (line: bytes, rest: bytes)
    requires d == Decode(Trailers, s, Strict) && d.outcome.Failed? && !StrictLine(s).Bad?
    ensures s == line + rest && IsLine(line) && LineText(line) != []
    ensures d == Decode(Trailers, rest, Strict) && |rest| < |s|
  {
    hide ParseSize, StrictLine, LineEnd, Text, IsLine;
    NothingIsNoLine();
    line, rest := LineTaken(s);
  }

  ghost predicate Breaks(s: bytes, p: bytes, f: Fault, chunks: seq<Chunk>, b: Breach) {
    && AreChunks(chunks) && b.Valid() && s == PrintChunks(chunks) + b.Print()
    && p == Payload(chunks) + b.Payload() && f == b.Fault()
  }

  lemma JustBreach(s: bytes, p: bytes, f: Fault, b: Breach)
    requires b.Valid() && s == b.Print() && p == b.Payload() && f == b.Fault()
    ensures Breaks(s, p, f, [], b)
  {
    hide Breach.Valid, Breach.Print, Breach.Payload, Breach.Fault;
    assert PrintChunks([]) + s == s && Payload([]) + p == p;
  }

  lemma {:induction false} FaultParses(s: bytes, p: bytes, f: Fault) returns (chunks: seq<Chunk>, b: Breach)
    requires Decode(Size, s, Strict) == Decoded(p, Failed(f))
    ensures Breaks(s, p, f, chunks, b)
    decreases |s|, 1
  {
    hide ParseSize, IsSizeLine, IsBroken, IsLine, Breaks;
    chunks := [];
    BrokenLine(s);
    if StrictLine(s).Bad? {
      b := BrokenSize(s);
      JustBreach(s, p, f, b);
      return;
    }
    var line, rest := s[..LineEnd(s) + 1], StrictLine(s).rest;
    GotLine(s, line);
    var size := ParseSize(LineText(line));
    hide StrictLine, LineEnd, Text;
    if size.None? {
      b := NoSize(line, rest);
      forall n
        ensures !IsSizeLine(line, n)
      {
        SizeLineParses(line, n);
      }
      JustBreach(s, p, f, b);
      return;
    }
    SizeLineParses(line, size.value);
    if size.value == 0 {
      var trailers, tail := TrailersBreak(rest, Decoded(p, Failed(f)));
      b := BrokenTrailer(line, trailers, tail);
      JustBreach(s, p, f, b);
    } else {
      chunks, b := DataParses(s, line, size.value, rest, p, f);
    }
  }

  /** A blank line follows `n` bytes of data. */
  predicate IsClosed(rest: bytes, n: nat) {
    n <= |rest| && StrictLine(rest[n..]).Got? && StrictLine(rest[n..]).text == []
  }

  lemma {:induction false} DataParses(s: bytes, line: bytes, n: nat, rest: bytes, p: bytes, f: Fault)
    returns (chunks: seq<Chunk>, b: Breach)
    requires s == line + rest && line != [] && IsSizeLine(line, n) && n > 0
    requires Decode(Data(n), rest, Strict) == Decoded(p, Failed(f))
    ensures Breaks(s, p, f, chunks, b)
    decreases |s|, 0
  {
    hide ParseSize, IsSizeLine, IsLine, Breaks, IsClosed;
    if IsClosed(rest, n) {
      var close, after, q := ChunkTaken(rest, n, p, f);
      var more;
      more, b := FaultParses(after, q, f);
      var c := Chunk(line, rest[..n], close);
      ChunkInFront(s, p, f, c, after, q, more, b);
      chunks := [c] + more;
    } else {
      b := DataBreaks(s, line, n, rest, p, f);
      chunks := [];
    }
  }

  lemma ChunkTaken(rest: bytes, n: nat, p: bytes, f: Fault) returns (close: bytes, after: bytes, q: bytes)
    requires IsClosed(rest, n) && n > 0 && Decode(Data(n), rest, Strict) == Decoded(p, Failed(f))
    ensures n <= |rest| && rest == rest[..n] + (close + after) && IsBlank(close) && p == rest[..n] + q && |after| < |rest|
    ensures Decode(Size, after, Strict) == Decoded(q, Failed(f))
  {
    hide ParseSize, StrictLine, LineEnd, Text, IsLine, IsBlank;
    var tail := rest[n..];
    NothingIsNoLine();
    close, after := LineTaken(tail);
    EmptyTextIsBlank(close);
    q := Decode(Size, after, Strict).payload;
    assert rest == rest[..n] + tail;
    assert Decode(DataEnd, tail, Strict) == Decode(Size, after, Strict);
  }

  lemma DataBreaks(s: bytes, line: bytes, n: nat, rest: bytes, p: bytes, f: Fault) returns (b: Breach)
    requires s == line + rest && IsSizeLine(line, n) && n > 0 && !IsClosed(rest, n)
    requires Decode(Data(n), rest, Strict) == Decoded(p, Failed(f))
    ensures Breaks(s, p, f, [], b)
  {
    hide ParseSize, IsSizeLine, IsBroken, IsLine, Breaks, StrictLine;
    if |rest| < n {
      b := ShortData(line, n, rest);
      JustBreach(s, p, f, b);
    } else {
      var data, tail := rest[..n], rest[n..];
      assert rest == data + tail && |data| == n;
      var d := Decode(DataEnd, tail, Strict);
      assert d.After(data) == Decoded(p, Failed(f));
      hide Decode;
      b := CloseBreaks(line, data, tail, d, f);
      assert data + [] == data;
      JustBreach(s, p, f, b);
    }
  }

  /** What follows a chunk's data is no blank line. */
  lemma CloseBreaks(line: bytes, data: bytes, tail: bytes, d: Decoded, f: Fault) returns (b: Breach)
    requires IsSizeLine(line, |data|) && data != [] && !(StrictLine(tail).Got? && StrictLine(tail).text == [])
    requires d == Decode(DataEnd, tail, Strict) && d.outcome == Failed(f)
    ensures b.Valid() && b.Print() == line + (data + tail) && b.Payload() == data && b.Fault() == f && d.payload == []
  {
    hide ParseSize, IsSizeLine, IsBroken, IsLine, StrictLine, LineEnd, Text;
    BrokenLine(tail);
    NothingIsNoLine();
    if tail == [] || StrictLine(tail).Bad? {
      b := BrokenClose(line, data, tail);
    } else {
      var close, after := LineTaken(tail);
      NotBlank(close);
      b := BadClose(line, data, close, after);
    }
  }

  lemma LineTaken(s: bytes) returns (line: bytes, rest: bytes)
    requires s != [] && !StrictLine(s).Bad?
    ensures IsLine(line) && s == line + rest && StrictLine(s) == Got(LineText(line), rest)
  {
    line, rest := s[..LineEnd(s) + 1], StrictLine(s).rest;
    GotLine(s, line);
  }

  lemma NotBlank(line: bytes)
    requires IsLine(line)
    ensures LineText(line) != [] ==> !IsBlank(line)
  {
  }

  lemma ChunkInFront(s: bytes, p: bytes, f: Fault, c: Chunk, after: bytes, q: bytes, chunks: seq<Chunk>, b: Breach)
    requires c.Valid() && s == c.sizeLine + (c.data + (c.close + after)) && p == c.data + q
    requires Breaks(after, q, f, chunks, b)
    ensures Breaks(s, p, f, [c] + chunks, b)
  {
    hide Breach.Valid, Breach.Print, Breach.Payload, Breach.Fault, Chunk.Valid;
    var all := [c] + chunks;
    assert all[1..] == chunks;
    PrintedChunk(s, c, after, PrintChunks(chunks), b.Print());
    Regroup(c.data, Payload(chunks), b.Payload());
  }

  /** Main result: a stream fails exactly when it is whole chunks and one breach:
  a line over 1026 bytes or cut off, a line that is no size, data cut short,
  or data not followed by a blank line. What came before is delivered, and the
  breach decides the fault. */
  lemma FaultExactly(s: bytes, p: bytes, f: Fault)
    ensures Decode(Size, s, Strict) == Decoded(p, Failed(f)) <==> exists chunks, b :: Breaks(s, p, f, chunks, b)
  {
    hide Breaks;
    if Decode(Size, s, Strict) == Decoded(p, Failed(f)) {
      var chunks, b := FaultParses(s, p, f);
    }
    forall chunks, b | Breaks(s, p, f, chunks, b)
      ensures Decode(Size, s, Strict) == Decoded(p, Failed(f))
    {
      BreaksDecode(s, p, f, chunks, b);
    }
  }

  lemma BreaksDecode(s: bytes, p: bytes, f: Fault, chunks: seq<Chunk>, b: Breach)
    requires Breaks(s, p, f, chunks, b)
    ensures Decode(Size, s, Strict) == Decoded(p, Failed(f))
  {
    hide Breach.Valid, Breach.Print, Breach.Payload, Breach.Fault, Decode, PrintChunks, Payload;
    BreachDecodes(b);
    DecodeChunks(chunks, b.Print());
  }
}
