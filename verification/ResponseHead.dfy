/** HTTP response heads (src/tunnel.rs): where one ends, and what it says. */
module ResponseHead {
  import opened Bytes
  import opened Multipart
  import ChunkedSpec

  const MAX_HEAD_BYTES := 65536
  const STATUS_LIMIT := 0x1_0000
  const LENGTH_LIMIT := 0x1_0000_0000_0000_0000

  const BLANK: bytes := [CR, LF, CR, LF]
  const SPACE: byte := 32
  const COLON: byte := 58
  const COMMA: byte := 44
  const PLUS: byte := 43

  const HTTP := Ascii("HTTP/")
  const DISCOVERY := Ascii("x-gateway-auth-url")
  const CONTENT_LENGTH := Ascii("content-length")
  const TRANSFER_ENCODING := Ascii("transfer-encoding")
  const CHUNKED := Ascii("chunked")

  datatype Head = Head(status: nat, discovery: Option<bytes>, length: Option<nat>, chunked: bool)

  /** Where the head at the front of `s` ends: just after the first blank line. */
  function HeadEnd(s: bytes): (n: Option<nat>)
    ensures n.Some? ==> 4 <= n.value <= |s|
  {
    match Find(s, BLANK, 0)
    case None => None
    case Some(i) => Some(i + 4)
  }

  // ----- the parts of a head

  function Continuation(b: byte): bool {
    0x80 <= b <= 0xBF
  }

  /** Length of the UTF-8 character at the front of `s`, 0 if there is none. */
  function CharLength(s: bytes): (n: nat)
    ensures n <= |s|
  {
    if |s| >= 1 && s[0] < 0x80 then 1
    else if |s| >= 2 && 0xC2 <= s[0] <= 0xDF && Continuation(s[1]) then 2
    else if |s| >= 3 && 0xE0 <= s[0] <= 0xEF && Continuation(s[1]) && Continuation(s[2])
            && (s[0] == 0xE0 ==> s[1] >= 0xA0) && (s[0] == 0xED ==> s[1] <= 0x9F) then 3
    else if |s| >= 4 && 0xF0 <= s[0] <= 0xF4 && Continuation(s[1]) && Continuation(s[2]) && Continuation(s[3])
            && (s[0] == 0xF0 ==> s[1] >= 0x90) && (s[0] == 0xF4 ==> s[1] <= 0x8F) then 4
    else 0
  }

  predicate Utf8(s: bytes)
    decreases |s|
  {
    s == [] || (CharLength(s) > 0 && Utf8(s[CharLength(s)..]))
  }

  /** `s` cut at every line break. */
  function Lines(s: bytes): (lines: seq<bytes>)
    ensures lines != []
    decreases |s|
  {
    match Find(s, CRLF, 0)
    case None => [s]
    case Some(i) => [s[..i]] + Lines(s[i + 2..])
  }

  function IndexOf(s: bytes, b: byte): (i: nat)
    ensures i <= |s| && (i < |s| ==> s[i] == b)
    ensures forall j :: 0 <= j < i ==> s[j] != b
  {
    if s == [] || s[0] == b then 0 else 1 + IndexOf(s[1..], b)
  }

  /** What comes before and after the first `b`. */
  function SplitOnce(s: bytes, b: byte): Option<(bytes, bytes)> {
    var i := IndexOf(s, b);
    if i < |s| then Some((s[..i], s[i + 1..])) else None
  }

  function Trim(s: bytes): bytes {
    ChunkedSpec.TrimEnd(ChunkedSpec.TrimStart(s))
  }

  function Lower(s: bytes): bytes {
    seq(|s|, i requires 0 <= i < |s| => if 65 <= s[i] <= 90 then s[i] + 32 else s[i])
  }

  predicate AreDecimal(ds: bytes) {
    ds != [] && forall i :: 0 <= i < |ds| ==> 48 <= ds[i] <= 57
  }

  /** An unsigned number below `limit`, with the leading plus sign that Rust allows. */
  function ParseNumber(s: bytes, limit: nat): Option<nat> {
    var digits := if s != [] && s[0] == PLUS then s[1..] else s;
    if AreDecimal(digits) && 0 <= DecimalValue(digits) < limit
    then Some(DecimalValue(digits))
    else None
  }

  /** A header's name, in lower case, and its value. */
  function HeaderOf(line: bytes): Option<(bytes, bytes)> {
    var (name, value) :- SplitOnce(line, COLON);
    Some((Lower(Trim(name)), Trim(value)))
  }

  /** The value of the last header of this name. */
  function LastValue(lines: seq<bytes>, name: bytes): Option<bytes> {
    if lines == [] then None
    else
      var header := HeaderOf(lines[|lines| - 1]);
      if header.Some? && header.value.0 == name then Some(header.value.1) else LastValue(lines[..|lines| - 1], name)
  }

  /** The status in a status line. */
  function StatusOf(line: bytes): Option<nat> {
    var (version, rest) :- SplitOnce(line, SPACE);
    if HTTP <= version then ParseNumber(rest[..IndexOf(rest, SPACE)], STATUS_LIMIT) else None
  }

  /** A content length that does not parse counts as zero. */
  function LengthOf(value: bytes): nat {
    match ParseNumber(value, LENGTH_LIMIT)
    case Some(n) => n
    case None => 0
  }

  /** Whether the last transfer coding named is chunked. */
  function NamesChunked(value: bytes): bool {
    Lower(Trim(AfterLastComma(value))) == CHUNKED
  }

  function AfterLastComma(s: bytes): bytes {
    var i := IndexOf(s, COMMA);
    if i < |s| then AfterLastComma(s[i + 1..]) else s
  }

  function LengthIn(lines: seq<bytes>): Option<nat> {
    match LastValue(lines, CONTENT_LENGTH)
    case Some(v) => Some(LengthOf(v))
    case None => None
  }

  function ChunkedIn(lines: seq<bytes>): bool {
    match LastValue(lines, TRANSFER_ENCODING)
    case Some(v) => NamesChunked(v)
    case None => false
  }

  /** What a head says: the last header of each name counts. */
  function HeadOf(raw: bytes): Option<Head> {
    if !Utf8(raw) then None
    else
      var lines := Lines(raw);
      var status :- StatusOf(lines[0]);
      Some(Head(status, LastValue(lines[1..], DISCOVERY), LengthIn(lines[1..]), ChunkedIn(lines[1..])))
  }

  /** Parse a head, header by header. */
  method ParseHead(raw: bytes) returns (r: Option<Head>)
    ensures r == HeadOf(raw)
  {
    hide Utf8, Lines, StatusOf, HeaderOf, LengthOf, NamesChunked;
    if !Utf8(raw) {
      return None;
    }
    var lines := Lines(raw);
    var status := StatusOf(lines[0]);
    if status.None? {
      return None;
    }
    var headers := lines[1..];
    var discovery, length, chunked := None, None, false;
    for i := 0 to |headers|
      invariant discovery == LastValue(headers[..i], DISCOVERY)
      invariant length == LengthIn(headers[..i])
      invariant chunked == ChunkedIn(headers[..i])
    {
      assert headers[..i + 1][..i] == headers[..i];
      assert |DISCOVERY| == 18 && |CONTENT_LENGTH| == 14 && |TRANSFER_ENCODING| == 17;
      var header := HeaderOf(headers[i]);
      if header.None? {
        continue;
      }
      var (name, value) := header.value;
      if name == DISCOVERY {
        discovery := Some(value);
      } else if name == CONTENT_LENGTH {
        length := Some(LengthOf(value));
      } else if name == TRANSFER_ENCODING {
        chunked := NamesChunked(value);
      }
    }
    assert headers[..|headers|] == headers;
    return Some(Head(status.value, discovery, length, chunked));
  }

  // ----- printed heads

  /** A head as a server writes it. */
  datatype Printed = Printed(version: bytes, status: nat, reason: bytes, headers: seq<(bytes, bytes)>) {
    ghost predicate Valid() {
      && status < 65536 && CR !in version && 32 !in version && CR !in reason
      && forall i :: 0 <= i < |headers| ==> CR !in headers[i].0 && 58 !in headers[i].0 && CR !in headers[i].1
    }

    function StatusLine(): bytes {
      Ascii("HTTP/") + version + ([32] + (Decimal(status) + ([32] + reason)))
    }

    function HeaderLines(): seq<bytes> {
      seq(|headers|, i requires 0 <= i < |headers| => headers[i].0 + ([58] + headers[i].1))
    }

    function Text(): bytes {
      JoinLines([StatusLine()] + HeaderLines()) + [13, 10]
    }

    /** The last value given to a name, compared without case. */
    function Value(name: bytes, count: nat): Option<bytes>
      requires count <= |headers|
    {
      if count == 0 then None
      else if Lower(Trim(headers[count - 1].0)) == name then Some(Trim(headers[count - 1].1))
      else Value(name, count - 1)
    }
  }

  function JoinLines(lines: seq<bytes>): bytes {
    if lines == [] then [] else lines[0] + ([13, 10] + JoinLines(lines[1..]))
  }

  lemma SplitOnceIs(a: bytes, b: byte, rest: bytes)
    requires b !in a
    ensures IndexOf(a + ([b] + rest), b) == |a|
    ensures SplitOnce(a + ([b] + rest), b) == Some((a, rest))
  {
    var s := a + ([b] + rest);
    assert s[|a|] == b && forall j :: 0 <= j < |a| ==> s[j] == a[j];
    assert s[..|a|] == a && s[|a| + 1..] == rest;
  }

  lemma StatusReads(p: Printed)
    requires p.Valid()
    ensures StatusOf(p.StatusLine()) == Some(p.status)
  {
    var digits := Decimal(p.status);
    var rest := digits + ([SPACE] + p.reason);
    assert SPACE !in HTTP + p.version by {
      assert SPACE !in HTTP;
    }
    SplitOnceIs(HTTP + p.version, SPACE, rest);
    SplitOnceIs(digits, SPACE, p.reason);
    assert rest[..|digits|] == digits;
    NumberReads(p.status);
    hide HTTP, Decimal, SplitOnce, ParseNumber, IndexOf;
  }

  lemma NumberReads(n: nat)
    ensures forall limit: nat :: n < limit ==> ParseNumber(Decimal(n), limit) == Some(n)
  {
    DecimalReads(n);
    hide Decimal, DecimalValue;
  }

  lemma {:induction false} ValuesRead(p: Printed, name: bytes, count: nat)
    requires p.Valid() && count <= |p.headers|
    ensures LastValue(p.HeaderLines()[..count], name) == p.Value(name, count)
  {
    if count > 0 {
      SplitOnceIs(p.headers[count - 1].0, COLON, p.headers[count - 1].1);
      assert p.HeaderLines()[..count][..count - 1] == p.HeaderLines()[..count - 1];
      ValuesRead(p, name, count - 1);
    }
  }

  ghost predicate NoBreaks(lines: seq<bytes>) {
    forall i :: 0 <= i < |lines| ==> CR !in lines[i] && lines[i] != []
  }

  lemma OneLineOff(line: bytes, rest: bytes)
    requires CR !in line
    ensures Lines(line + (CRLF + rest)) == [line] + Lines(rest)
  {
    assert !Occurs(line, CRLF) by {
      forall i | 0 <= i && i + 2 <= |line|
        ensures !OccursAt(line, CRLF, i)
      {
        assert line[i..i + 2][0] == line[i];
      }
    }
    NoStraddle(line, CRLF, rest);
    var s := line + (CRLF + rest);
    assert s[..|line|] == line && s[|line| + 2..] == rest;
  }

  lemma {:induction false} LinesRead(lines: seq<bytes>, rest: bytes)
    requires NoBreaks(lines)
    ensures Lines(JoinLines(lines) + rest) == lines + Lines(rest)
  {
    if lines == [] {
      assert [] + rest == rest;
    } else {
      var more := JoinLines(lines[1..]);
      assert JoinLines(lines) + rest == lines[0] + (CRLF + (more + rest)) by {
        Regroup(lines[0], CRLF + more, rest);
        Regroup(CRLF, more, rest);
      }
      OneLineOff(lines[0], more + rest);
      LinesRead(lines[1..], rest);
      Regroup([lines[0]], lines[1..], Lines(rest));
      assert [lines[0]] + lines[1..] == lines;
      hide Lines, JoinLines;
    }
  }

  lemma BreakLines()
    ensures Lines(CRLF) == [[], []]
  {
    OneLineOff([], []);
    assert [] + (CRLF + []) == CRLF;
    assert Find([], CRLF, 0) == None;
  }

  /** No blank line starts in a text line, or in a break with a line after it. */
  lemma {:induction false} NoBlankBefore(lines: seq<bytes>, rest: bytes, j: nat)
    requires NoBreaks(lines) && j + 2 < |JoinLines(lines)|
    ensures !OccursAt(JoinLines(lines) + rest, BLANK, j)
  {
    var s, line, more := JoinLines(lines) + rest, lines[0], JoinLines(lines[1..]);
    assert s == line + (CRLF + (more + rest));
    if j + 4 <= |s| {
      assert s[j..j + 4][0] == s[j] && s[j..j + 4][2] == s[j + 2];
      if j < |line| {
        assert s[j] == line[j];
      } else if j == |line| {
        assert s[j + 2] == more[0] == lines[1][0];
      } else if j > |line| + 1 {
        var k := j - |line| - 2;
        NoBlankBefore(lines[1..], rest, k);
        assert s[j..j + 4] == (more + rest)[k..k + 4];
      }
    }
  }

  lemma {:induction false} JoinEnds(lines: seq<bytes>)
    requires lines != []
    ensures var s := JoinLines(lines); |s| >= 2 && s[|s| - 2..] == CRLF
  {
    if |lines| > 1 {
      JoinEnds(lines[1..]);
    }
  }

  lemma BlankAt(lines: seq<bytes>, rest: bytes)
    requires NoBreaks(lines) && lines != []
    ensures HeadEnd(JoinLines(lines) + CRLF + rest) == Some(|JoinLines(lines)| + 2)
  {
    var s, a := JoinLines(lines) + CRLF + rest, JoinLines(lines);
    JoinEnds(lines);
    assert s[|a| - 2..|a| + 2] == a[|a| - 2..] + CRLF == BLANK;
    assert s == a + (CRLF + rest);
    forall j | 0 <= j < |a| - 2
      ensures !OccursAt(s, BLANK, j)
    {
      NoBlankBefore(lines, CRLF + rest, j);
    }
    FindIs(s, BLANK, |a| - 2);
  }

  lemma PrintedLines(p: Printed)
    requires p.Valid()
    ensures NoBreaks([p.StatusLine()] + p.HeaderLines())
  {
    var line := p.StatusLine();
    assert forall i :: 0 <= i < |Decimal(p.status)| ==> Decimal(p.status)[i] >= 48;
    assert forall b :: b in HTTP ==> b != CR;
    assert line != [];
  }

  /** Main result: a printed head followed by anything ends where it was
  printed to end, and reads back as its status and, for each name the client
  looks at, the last value it was given, exactly when it is UTF-8. */
  lemma PrintedReads(p: Printed, rest: bytes)
    requires p.Valid()
    ensures HeadEnd(p.Text() + rest) == Some(|p.Text()|)
    ensures HeadOf(p.Text()).Some? <==> Utf8(p.Text())
    ensures Utf8(p.Text()) ==> HeadOf(p.Text()) == Some(Head(
        p.status,
        p.Value(DISCOVERY, |p.headers|),
        match p.Value(CONTENT_LENGTH, |p.headers|)
        case Some(v) => Some(LengthOf(v))
        case None => None,
        match p.Value(TRANSFER_ENCODING, |p.headers|)
        case Some(v) => NamesChunked(v)
        case None => false))
  {
    hide LastValue, StatusOf, HeadEnd, JoinLines, Lines, Printed.StatusLine, Printed.HeaderLines, Printed.Value;
    TextLines(p);
    StatusReads(p);
    HeadersRead(p);
    PrintedLines(p);
    BlankAt([p.StatusLine()] + p.HeaderLines(), rest);
  }

  /** The lines of a printed head, with the two that its end reads as. */
  lemma TextLines(p: Printed)
    requires p.Valid()
    ensures Lines(p.Text()) == [p.StatusLine()] + (p.HeaderLines() + [[], []])
  {
    hide Lines, JoinLines;
    var lines := [p.StatusLine()] + p.HeaderLines();
    PrintedLines(p);
    LinesRead(lines, CRLF);
    BreakLines();
    Regroup([p.StatusLine()], p.HeaderLines(), [[], []]);
  }

  lemma HeadersRead(p: Printed)
    requires p.Valid()
    ensures forall name: bytes :: LastValue(p.HeaderLines() + [[], []], name) == p.Value(name, |p.headers|)
  {
    forall name: bytes
      ensures LastValue(p.HeaderLines() + [[], []], name) == p.Value(name, |p.headers|)
    {
      TwoBlankLines(p.HeaderLines(), name);
      ValuesRead(p, name, |p.headers|);
      assert p.HeaderLines()[..|p.headers|] == p.HeaderLines();
    }
  }

  lemma TwoBlankLines(lines: seq<bytes>, name: bytes)
    ensures LastValue(lines + [[], []], name) == LastValue(lines, name)
  {
    var one := lines + [[]];
    assert (lines + [[], []])[..|lines| + 1] == one && one[..|lines|] == lines;
  }
}
