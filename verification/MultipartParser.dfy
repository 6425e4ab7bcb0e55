/** A reader of multipart bodies, and what it gets back from the encoder's. */
module MultipartParser {
  import opened Bytes
  import opened Multipart

  // the words of the format, as RFC 7578 and RFC 2046 have them
  const BREAK: bytes := [13, 10]
  const NAME_FIELD := Ascii("Content-Disposition: form-data; name=\"")
  const FILENAME_FIELD := Ascii("; filename=\"")
  const TYPE_FIELD := Ascii("Content-Type: ")
  const BOUNDARY_FIELD := Ascii("multipart/form-data; boundary=")

  /** The encoder writes those words. */
  lemma SameWords()
    ensures BREAK == CRLF && NAME_FIELD == DISPOSITION && FILENAME_FIELD == FILENAME
    ensures TYPE_FIELD == CONTENT_TYPE && BOUNDARY_FIELD == MEDIA_TYPE
    ensures DASHES == [45, 45] && QUOTE == 34
  {
  }

  /** The name and file name in a Content-Disposition line. */
  function ParseDisposition(line: bytes): Option<(bytes, Option<bytes>)> {
    var s :- Strip(line, NAME_FIELD);
    var end :- Find(s, [34], 0);
    if end + 1 == |s| then Some((s[..end], None))
    else
      var f :- Strip(s[end + 1..], FILENAME_FIELD);
      var last :- Find(f, [34], 0);
      if last + 1 == |f| then Some((s[..end], Some(f[..last]))) else None
  }

  /** What stands between two delimiters: header lines, a blank line, data. */
  function ParseSegment(segment: bytes): Option<FormPart> {
    var s :- Strip(segment, BREAK);
    var end :- Find(s, BREAK, 0);
    var names :- ParseDisposition(s[..end]);
    var more := s[end + 2..];
    match Strip(more, BREAK)
    case Some(data) => Some(FormPart(names.0, names.1, None, data))
    case None =>
      var typeEnd :- Find(more, BREAK, 0);
      var contentType :- Strip(more[..typeEnd], TYPE_FIELD);
      var data :- Strip(more[typeEnd + 2..], BREAK);
      Some(FormPart(names.0, names.1, Some(contentType), data))
  }

  /** The parts that follow a delimiter, up to the closing one. */
  function ParseParts(s: bytes, delimiter: bytes): Option<seq<FormPart>>
    requires delimiter != []
    decreases |s|
  {
    if s == [45, 45] + BREAK then Some([])
    else
      var at :- Find(s, delimiter, 0);
      var part :- ParseSegment(s[..at]);
      var parts :- ParseParts(s[at + |delimiter|..], delimiter);
      Some([part] + parts)
  }

  /** Read a body with the boundary its media type names. */
  function Parse(body: RawBody): Option<seq<FormPart>> {
    var boundary :- Strip(body.contentType, BOUNDARY_FIELD);
    var s :- Strip(BREAK + body.content, BREAK + [45, 45] + boundary);
    ParseParts(s, BREAK + [45, 45] + boundary)
  }

  // ----- what no segment contains

  ghost predicate OneLine(contentType: Option<bytes>) {
    contentType.Some? ==> !Occurs(contentType.value, CRLF)
  }

  lemma NoBreak(plain: bytes, text: bytes)
    requires CR !in plain && !Occurs(text, CRLF)
    ensures !Occurs(plain + text, CRLF)
  {
    var s := plain + text;
    forall i | 0 <= i && i + 2 <= |s|
      ensures !OccursAt(s, CRLF, i)
    {
      if i < |plain| {
        assert s[i..i + 2][0] == plain[i];
      } else {
        assert s[i..i + 2] == text[i - |plain|..i - |plain| + 2];
        assert !OccursAt(text, CRLF, i - |plain|);
      }
    }
  }

  lemma PlainHasNoBreak(plain: bytes)
    requires CR !in plain
    ensures !Occurs(plain, CRLF)
  {
    forall i | 0 <= i && i + 2 <= |plain|
      ensures !OccursAt(plain, CRLF, i)
    {
      assert plain[i..i + 2][0] == plain[i];
    }
  }

  lemma NoBreakNoDelimiter(s: bytes, delimiter: bytes, p: nat)
    requires CRLF <= delimiter && !OccursAt(s, CRLF, p)
    ensures !OccursAt(s, delimiter, p)
  {
    if p + |delimiter| <= |s| {
      assert s[p..p + |delimiter|][..2] == s[p..p + 2];
    }
  }

  lemma NotAtBreak(line: bytes, rest: bytes, delimiter: bytes)
    requires CRLF <= delimiter && !(delimiter[2..] <= rest)
    ensures !OccursAt(line + (CRLF + rest), delimiter, |line|)
    ensures !OccursAt(line + (CRLF + rest), delimiter, |line| + 1)
  {
    var s, n := line + (CRLF + rest), |delimiter|;
    if |line| + n <= |s| {
      SliceAfter(line, CRLF + rest, 0, n);
      assert (CRLF + rest)[..n][2..] == rest[..n - 2];
    }
    if |line| + 1 + n <= |s| {
      assert s[|line| + 1..|line| + 1 + n][0] == LF;
    }
  }

  lemma NotAfterBreak(line: bytes, rest: bytes, delimiter: bytes, q: nat)
    requires !OccursAt(rest, delimiter, q)
    ensures !OccursAt(line + (CRLF + rest), delimiter, |line| + 2 + q)
  {
    Regroup(line, CRLF, rest);
    if q + |delimiter| <= |rest| {
      SliceAfter(line + CRLF, rest, q, |delimiter|);
    }
  }

  /** A delimiter that occurs after a one-line text starts after its line break. */
  lemma SkipLine(line: bytes, rest: bytes, delimiter: bytes)
    requires CRLF <= delimiter && !Occurs(line, CRLF)
    requires !(delimiter[2..] <= rest) && !Occurs(rest, delimiter)
    ensures !Occurs(line + (CRLF + rest), delimiter)
  {
    var s := line + (CRLF + rest);
    NoStraddle(line, CRLF, rest);
    assert forall j :: 0 <= j < |line| ==> !OccursAt(s, CRLF, j);
    hide Find, OccursAt;
    forall p: nat
      ensures !OccursAt(s, delimiter, p)
    {
      if p < |line| {
        NoBreakNoDelimiter(s, delimiter, p);
      } else if p <= |line| + 1 {
        NotAtBreak(line, rest, delimiter);
      } else {
        NotAfterBreak(line, rest, delimiter, p - |line| - 2);
      }
    }
    NoneOccur(s, delimiter);
  }

  lemma NoneOccur(s: bytes, needle: bytes)
    requires forall p: nat :: !OccursAt(s, needle, p)
    ensures !Occurs(s, needle)
  {
  }

  lemma DataHasNoDelimiter(data: bytes, boundary: bytes)
    requires !Occurs(data, boundary)
    ensures !Occurs(data, Delimiter(boundary)) && !(Delimiter(boundary)[2..] <= data)
  {
    var d := Delimiter(boundary);
    assert d[4..] == d[2..][2..] == boundary;
    forall p | 0 <= p && p + |d| <= |data|
      ensures !OccursAt(data, d, p)
    {
      assert data[p..p + |d|][4..] == data[p + 4..p + 4 + |boundary|];
      assert !OccursAt(data, boundary, p + 4);
    }
    if |d| - 2 <= |data| {
      assert data[..|d| - 2][2..] == data[2..2 + |boundary|];
      assert !OccursAt(data, boundary, 2);
    }
  }

  lemma AsciiIsPlain(s: string)
    requires forall c | c in s :: ' ' <= c <= '~'
    ensures CR !in Ascii(s) && LF !in Ascii(s)
  {
    forall i | 0 <= i < |s|
      ensures 32 <= Ascii(s)[i] < 127
    {
      assert s[i] in s;
    }
  }

  /** The encoder's own words hold no line break. */
  lemma WordsArePlain()
    ensures CR !in DISPOSITION && LF !in DISPOSITION && |DISPOSITION| > 0 && DISPOSITION[0] == 67
    ensures CR !in FILENAME && LF !in FILENAME
    ensures CR !in CONTENT_TYPE && |CONTENT_TYPE| > 0 && CONTENT_TYPE[0] == 67
  {
    AsciiIsPlain("Content-Disposition: form-data; name=\"");
    AsciiIsPlain("; filename=\"");
    AsciiIsPlain("Content-Type: ");
  }

  lemma DispositionIsPlain(part: FormPart)
    ensures CR !in DispositionLine(part) && LF !in DispositionLine(part)
    ensures |DispositionLine(part)| > 0 && DispositionLine(part)[0] == 67
  {
    WordsArePlain();
    hide DISPOSITION, FILENAME;
  }

  lemma TypeLineBreaks(contentType: bytes)
    requires !Occurs(contentType, CRLF)
    ensures !Occurs(TypeLine(contentType), CRLF)
    ensures |TypeLine(contentType)| > 0 && TypeLine(contentType)[0] == 67
  {
    WordsArePlain();
    hide CONTENT_TYPE;
    NoBreak(CONTENT_TYPE, contentType);
  }

  /** No delimiter occurs in a part's framing, in its data, or across them. */
  lemma SegmentHasNoDelimiter(part: FormPart, boundary: bytes)
    requires OneLine(part.contentType) && !Occurs(part.data, boundary)
    ensures !Occurs(Segment(part), Delimiter(boundary))
  {
    hide DispositionLine, TypeLine;
    var d := Delimiter(boundary);
    assert d[..2] == CRLF && d[2] == 45;
    DataHasNoDelimiter(part.data, boundary);
    PlainHasNoBreak([]);
    var blank := CRLF + part.data;
    assert [] + blank == blank;
    SkipLine([], part.data, d);
    var types := TypeHeader(part) + blank;
    if part.contentType.Some? {
      var line := TypeLine(part.contentType.value);
      TypeLineBreaks(part.contentType.value);
      SkipLine(line, blank, d);
      Regroup(line, CRLF, blank);
      assert types[0] == line[0];
    } else {
      assert types == blank;
    }
    DispositionIsPlain(part);
    PlainHasNoBreak(DispositionLine(part));
    SkipLine(DispositionLine(part), types, d);
    var named := DispositionLine(part) + (CRLF + types);
    assert named[0] == DispositionLine(part)[0];
    SkipLine([], named, d);
    assert [] + (CRLF + named) == Segment(part);
  }

  // ----- reading one part back

  function QuotedPart(part: FormPart): FormPart {
    part.(name := Quote(part.name),
          filename := if part.filename.Some? then Some(Quote(part.filename.value)) else None)
  }

  lemma QuotedTextEnds(s: bytes, rest: bytes)
    ensures Find(Quote(s) + ([QUOTE] + rest), [QUOTE], 0) == Some(|s|)
  {
    forall i | 0 <= i < |s|
      ensures !OccursAt(Quote(s), [QUOTE], i)
    {
      assert Quote(s)[i..i + 1][0] == Quote(s)[i];
    }
    NoStraddle(Quote(s), [QUOTE], rest);
  }

  lemma DispositionReads(part: FormPart)
    ensures ParseDisposition(DispositionLine(part)) == Some((QuotedPart(part).name, QuotedPart(part).filename))
  {
    hide Quote;
    var name, line := Quote(part.name), DispositionLine(part);
    if part.filename.Some? {
      var file := Quote(part.filename.value);
      var f := file + ([QUOTE] + []);
      var tail := FILENAME + f;
      var s := name + ([QUOTE] + tail);
      assert line == DISPOSITION + s;
      StripPrefix(DISPOSITION, s);
      QuotedTextEnds(part.name, tail);
      assert s[|name| + 1..] == tail && s[..|name|] == name;
      StripPrefix(FILENAME, f);
      QuotedTextEnds(part.filename.value, []);
      assert f[..|file|] == file;
    } else {
      var s := name + ([QUOTE] + []);
      assert line == DISPOSITION + s;
      StripPrefix(DISPOSITION, s);
      QuotedTextEnds(part.name, []);
      assert s[..|name|] == name;
    }
  }

  lemma SegmentReads(part: FormPart)
    requires OneLine(part.contentType)
    ensures ParseSegment(Segment(part)) == Some(QuotedPart(part))
  {
    hide DispositionLine, TypeLine, ParseDisposition, QuotedPart;
    var blank := CRLF + part.data;
    var types := TypeHeader(part) + blank;
    var line := DispositionLine(part);
    var named := line + (CRLF + types);
    StripPrefix(CRLF, named);
    DispositionIsPlain(part);
    PlainHasNoBreak(line);
    NoStraddle(line, CRLF, types);
    assert named[..|line|] == line && named[|line| + 2..] == types;
    DispositionReads(part);
    StripPrefix(CRLF, part.data);
    if part.contentType.Some? {
      var t := TypeLine(part.contentType.value);
      TypeLineBreaks(part.contentType.value);
      Regroup(t, CRLF, blank);
      NoStraddle(t, CRLF, blank);
      assert types[..|t|] == t && types[|t| + 2..] == blank && types[0] == t[0];
      TypeLineReads(part.contentType.value);
    } else {
      assert types == blank;
    }
    QuotedKeeps(part);
  }

  lemma TypeLineReads(contentType: bytes)
    ensures Strip(TypeLine(contentType), CONTENT_TYPE) == Some(contentType)
  {
    StripPrefix(CONTENT_TYPE, contentType);
  }

  lemma QuotedKeeps(part: FormPart)
    ensures QuotedPart(part)
         == FormPart(QuotedPart(part).name, QuotedPart(part).filename, part.contentType, part.data)
  {
  }

  // ----- reading a whole body back

  function QuotedParts(parts: seq<FormPart>): seq<FormPart> {
    seq(|parts|, i requires 0 <= i < |parts| => QuotedPart(parts[i]))
  }

  ghost predicate OneLiners(parts: seq<FormPart>) {
    forall k :: 0 <= k < |parts| ==> OneLine(parts[k].contentType)
  }

  /** A body after its first delimiter. */
  function AfterDelimiter(parts: seq<FormPart>, boundary: bytes): bytes {
    if parts == [] then DASHES + CRLF else Segment(parts[0]) + Encoded(parts[1..], boundary)
  }

  lemma DelimiterShape(boundary: bytes)
    requires CR !in boundary
    ensures var d := Delimiter(boundary); d != [] && forall i :: 1 <= i < |d| ==> d[i] != d[0]
  {
  }

  lemma EncodedStarts(parts: seq<FormPart>, boundary: bytes)
    ensures Encoded(parts, boundary) == Delimiter(boundary) + AfterDelimiter(parts, boundary)
  {
  }

  lemma {:induction false} PartsRead(parts: seq<FormPart>, boundary: bytes)
    requires OneLiners(parts) && Absent(parts, boundary) && CR !in boundary
    ensures ParseParts(AfterDelimiter(parts, boundary), Delimiter(boundary)) == Some(QuotedParts(parts))
  {
    if parts == [] {
      assert QuotedParts(parts) == [];
    } else {
      hide ParseParts, Segment, ParseSegment, QuotedPart, Encoded, Delimiter, QuotedParts, AfterDelimiter, Occurs;
      var d, more := Delimiter(boundary), AfterDelimiter(parts[1..], boundary);
      PartsUnfold(parts, boundary);
      PartsRead(parts[1..], boundary);
      EncodedStarts(parts[1..], boundary);
      DelimiterShape(boundary);
      SegmentStarts(parts[0]);
      SegmentHasNoDelimiter(parts[0], boundary);
      SegmentReads(parts[0]);
      OnePartRead(Segment(parts[0]), d, more, QuotedPart(parts[0]), QuotedParts(parts[1..]));
    }
  }

  lemma PartsUnfold(parts: seq<FormPart>, boundary: bytes)
    requires parts != []
    ensures AfterDelimiter(parts, boundary) == Segment(parts[0]) + Encoded(parts[1..], boundary)
    ensures QuotedParts(parts) == [QuotedPart(parts[0])] + QuotedParts(parts[1..])
  {
    hide Segment, Encoded, QuotedPart;
  }

  lemma OnePartRead(segment: bytes, d: bytes, more: bytes, part: FormPart, parts: seq<FormPart>)
    requires d != [] && (forall i :: 1 <= i < |d| ==> d[i] != d[0]) && !Occurs(segment, d)
    requires segment != [] && segment[0] == CR
    requires ParseSegment(segment) == Some(part) && ParseParts(more, d) == Some(parts)
    ensures ParseParts(segment + (d + more), d) == Some([part] + parts)
  {
    hide ParseSegment, ParseParts;
    NoStraddle(segment, d, more);
    hide Find;
    Divide(segment, d, more);
    var s := segment + (d + more);
    assert s[0] == CR && (DASHES + CRLF)[0] == 45;
    ParsePartsStep(s, d, |segment|, part, parts);
  }

  lemma ParsePartsStep(s: bytes, d: bytes, at: nat, part: FormPart, parts: seq<FormPart>)
    requires d != [] && s != DASHES + CRLF && Find(s, d, 0) == Some(at)
    requires ParseSegment(s[..at]) == Some(part) && ParseParts(s[at + |d|..], d) == Some(parts)
    ensures ParseParts(s, d) == Some([part] + parts)
  {
    hide ParseSegment, Find, OccursAt;
  }

  lemma SegmentStarts(part: FormPart)
    ensures |Segment(part)| > 0 && Segment(part)[0] == CR
  {
  }

  lemma Divide(a: bytes, b: bytes, c: bytes)
    ensures (a + (b + c))[..|a|] == a && (a + (b + c))[|a| + |b|..] == c
  {
  }

  lemma SuffixHasNoBreak(s: bytes, at: nat, from: nat)
    requires Find(s, CRLF, 0) == Some(at) && from <= at <= |s|
    ensures !Occurs(s[..at][from..], CRLF)
  {
    var line := s[..at][from..];
    assert forall j :: 0 <= j < at ==> !OccursAt(s, CRLF, j);
    hide Find, OccursAt;
    forall i: nat
      ensures !OccursAt(line, CRLF, i)
    {
      NotInSlice(s, at, from, i);
    }
    NoneOccur(line, CRLF);
  }

  lemma NotInSlice(s: bytes, at: nat, from: nat, i: nat)
    requires from <= at <= |s| && (from + i < at ==> !OccursAt(s, CRLF, from + i))
    ensures !OccursAt(s[..at][from..], CRLF, i)
  {
    var line := s[..at][from..];
    if i + 2 <= |line| {
      assert line[i] == s[from + i] && line[i + 1] == s[from + i + 1];
      assert line[i..i + 2] == [line[i], line[i + 1]];
      assert s[from + i..from + i + 2] == [s[from + i], s[from + i + 1]];
    }
  }

  lemma ReadSegmentIsOneLine(segment: bytes)
    ensures ParseSegment(segment).Some? ==> OneLine(ParseSegment(segment).value.contentType)
  {
    hide ParseDisposition;
    if ParseSegment(segment).Some? && ParseSegment(segment).value.contentType.Some? {
      var s := segment[2..];
      var more := s[Find(s, CRLF, 0).value + 2..];
      SuffixHasNoBreak(more, Find(more, CRLF, 0).value, |CONTENT_TYPE|);
    }
  }

  /** Whatever the reader accepts has one-line content types. */
  lemma {:induction false} ReadPartsAreOneLiners(s: bytes, delimiter: bytes)
    requires delimiter != []
    ensures ParseParts(s, delimiter).Some? ==> OneLiners(ParseParts(s, delimiter).value)
    decreases |s|
  {
    hide ParseSegment, Find;
    if s != [45, 45] + BREAK && ParseParts(s, delimiter).Some? {
      var at := Find(s, delimiter, 0).value;
      ReadSegmentIsOneLine(s[..at]);
      ReadPartsAreOneLiners(s[at + |delimiter|..], delimiter);
    }
  }

  lemma CandidateHasNoBreak(n: nat)
    ensures CR !in Candidate(n)
  {
    AsciiIsPlain("lager-net-boundary-");
  }

  /** Main result: a body reads back as its parts in order, each with its exact
  data and content type and its quoted names, exactly when no content type
  has a line break in it. */
  lemma RoundTrip(parts: seq<FormPart>, n: nat, body: RawBody)
    requires Chosen(parts, n, body)
    ensures Parse(body) == Some(QuotedParts(parts)) <==> OneLiners(parts)
  {
    var boundary := Candidate(n);
    var d := Delimiter(boundary);
    StripPrefix(MEDIA_TYPE, boundary);
    var s := AfterDelimiter(parts, boundary);
    EncodedStarts(parts, boundary);
    StripPrefix(d, s);
    assert Parse(body) == ParseParts(s, d);
    hide Parse, ParseParts, Encoded, AfterDelimiter, Candidate;
    CandidateHasNoBreak(n);
    if OneLiners(parts) {
      PartsRead(parts, boundary);
    }
    if Parse(body) == Some(QuotedParts(parts)) {
      ReadPartsAreOneLiners(s, d);
      forall k | 0 <= k < |parts|
        ensures OneLine(parts[k].contentType)
      {
        assert OneLine(QuotedParts(parts)[k].contentType);
      }
    }
  }
}
