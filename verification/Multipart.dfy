/** The multipart/form-data encoder (src/wire.rs; RFC 7578, RFC 2046 section 5.1.1). */
module Multipart {
  import opened Bytes

  const CRLF: bytes := [CR, LF]
  const DASHES: bytes := [45, 45]
  const QUOTE: byte := 34
  const UNDERSCORE: byte := 95
  const U32_LIMIT := 0x1_0000_0000

  const PREFIX := Ascii("lager-net-boundary-")
  const DISPOSITION := Ascii("Content-Disposition: form-data; name=\"")
  const FILENAME := Ascii("; filename=\"")
  const CONTENT_TYPE := Ascii("Content-Type: ")
  const MEDIA_TYPE := Ascii("multipart/form-data; boundary=")

  datatype FormPart = FormPart(name: bytes, filename: Option<bytes>, contentType: Option<bytes>, data: bytes)

  datatype RawBody = RawBody(contentType: bytes, content: bytes)

  // ----- choosing the boundary

  function Decimal(n: nat): (ds: bytes)
    ensures ds != [] && forall i :: 0 <= i < |ds| ==> 48 <= ds[i] <= 57
  {
    (if n < 10 then [] else Decimal(n / 10)) + [48 + n % 10]
  }

  function Candidate(n: nat): bytes {
    PREFIX + Decimal(n)
  }

  ghost predicate Absent(parts: seq<FormPart>, boundary: bytes) {
    forall k :: 0 <= k < |parts| ==> !Occurs(parts[k].data, boundary)
  }

  /** The first index whose candidate occurs in no part; none if the 32-bit
  counter runs out first. */
  method ChooseBoundary(parts: seq<FormPart>) returns (r: Option<nat>)
    ensures r.Some? ==> r.value < U32_LIMIT && Absent(parts, Candidate(r.value))
    ensures forall m :: 0 <= m < (if r.Some? then r.value else U32_LIMIT) ==> !Absent(parts, Candidate(m))
  {
    var n := 0;
    while n < U32_LIMIT
      invariant n <= U32_LIMIT
      invariant forall m :: 0 <= m < n ==> !Absent(parts, Candidate(m))
    {
      var k, found := 0, false;
      while k < |parts| && !found
        invariant 0 <= k <= |parts|
        invariant !found ==> forall j :: 0 <= j < k ==> !Occurs(parts[j].data, Candidate(n))
        invariant found ==> !Absent(parts, Candidate(n))
        decreases |parts| - k, !found
      {
        var at := Search(parts[k].data, Candidate(n));
        found := at.Some?;
        assert found ==> OccursAt(parts[k].data, Candidate(n), at.value);
        k := k + 1;
      }
      if !found {
        return Some(n);
      }
      n := n + 1;
    }
    return None;
  }

  // ----- how long the search can be

  function DecimalValue(ds: bytes): int {
    if ds == [] then 0 else 10 * DecimalValue(ds[..|ds| - 1]) + ds[|ds| - 1] - 48
  }

  lemma {:induction false} DecimalReads(n: nat)
    ensures DecimalValue(Decimal(n)) == n
  {
    var ds := Decimal(n);
    if n < 10 {
      assert ds[..|ds| - 1] == [];
    } else {
      DecimalReads(n / 10);
      assert ds[..|ds| - 1] == Decimal(n / 10);
    }
  }

  function Power10(k: nat): nat {
    if k == 0 then 1 else 10 * Power10(k - 1)
  }

  lemma {:induction false} DecimalDigits(n: nat, k: nat)
    requires n < Power10(k) && 0 < k
    ensures |Decimal(n)| <= k
  {
    if n >= 10 {
      DecimalDigits(n / 10, k - 1);
    }
  }

  function Datas(parts: seq<FormPart>): seq<bytes> {
    seq(|parts|, i requires 0 <= i < |parts| => parts[i].data)
  }

  function TotalData(parts: seq<FormPart>): nat {
    |Flatten(Datas(parts))|
  }

  /** What occurs in a piece occurs in the pieces joined. */
  lemma {:induction false} OccursInFlatten(pieces: seq<bytes>, k: nat, needle: bytes)
    requires k < |pieces| && Occurs(pieces[k], needle)
    ensures Occurs(Flatten(pieces), needle)
  {
    if k == 0 {
      var i :| OccursAt(pieces[0], needle, i);
      assert OccursAt(Flatten(pieces), needle, i);
    } else {
      OccursInFlatten(pieces[1..], k - 1, needle);
      var i :| OccursAt(Flatten(pieces[1..]), needle, i);
      assert OccursAt(Flatten(pieces), needle, |pieces[0]| + i);
    }
  }

  lemma {:induction false} Pigeonhole(codes: seq<nat>, bound: nat)
    requires forall i :: 0 <= i < |codes| ==> codes[i] < bound
    requires forall i, j :: 0 <= i < j < |codes| ==> codes[i] != codes[j]
    ensures |codes| <= bound
  {
    if codes != [] {
      if j :| 0 <= j < |codes| && codes[j] == bound - 1 {
        assert bound > 0;
        Pigeonhole(codes[..j] + codes[j + 1..], bound - 1);
      } else {
        assert 0 <= codes[0] < bound;
        Pigeonhole(codes, bound - 1);
      }
    }
  }

  /** Where a candidate occurs in the joined data, and how many digits it has. */
  ghost function Code(all: bytes, m: nat): (c: nat)
    requires Occurs(all, Candidate(m)) && m < Power10(10)
    ensures OccursAt(all, Candidate(m), c / 10) && c % 10 == |Decimal(m)| - 1
    ensures c < 10 * |all|
  {
    var p :| OccursAt(all, Candidate(m), p);
    DecimalDigits(m, 10);
    10 * p + |Decimal(m)| - 1
  }

  /** Two candidates of one length cannot start at the same place. */
  lemma CodeInjective(all: bytes, m: nat, k: nat)
    requires Occurs(all, Candidate(m)) && m < Power10(10)
    requires Occurs(all, Candidate(k)) && k < Power10(10)
    requires Code(all, m) == Code(all, k)
    ensures m == k
  {
    var p := Code(all, m) / 10;
    assert all[p..p + |Candidate(m)|] == Candidate(m);
    assert all[p..p + |Candidate(k)|] == Candidate(k);
    assert Candidate(m) == Candidate(k);
    assert Decimal(m) == Candidate(m)[|PREFIX|..] == Candidate(k)[|PREFIX|..] == Decimal(k);
    DecimalReads(m);
    DecimalReads(k);
  }

  /** While indices have at most ten digits, rejecting `n` candidates takes
  at least n / 10 bytes of data. */
  lemma SearchBound(parts: seq<FormPart>, n: nat)
    requires n <= Power10(10)
    requires forall m :: 0 <= m < n ==> !Absent(parts, Candidate(m))
    ensures n <= 10 * TotalData(parts)
  {
    var all := Flatten(Datas(parts));
    forall m | 0 <= m < n
      ensures Occurs(all, Candidate(m))
    {
      assert !Absent(parts, Candidate(m));
      var k :| 0 <= k < |parts| && Occurs(parts[k].data, Candidate(m));
      OccursInFlatten(Datas(parts), k, Candidate(m));
    }
    var codes := seq(n, m requires 0 <= m < n => Code(all, m));
    forall i, j | 0 <= i < j < n
      ensures codes[i] != codes[j]
    {
      if codes[i] == codes[j] {
        CodeInjective(all, i, j);
      }
    }
    Pigeonhole(codes, 10 * |all|);
  }

  /** The counter cannot run out on less than 2^32 / 10 bytes of data. */
  lemma CounterSuffices(parts: seq<FormPart>)
    requires 10 * TotalData(parts) < U32_LIMIT
    ensures exists n :: 0 <= n < U32_LIMIT && Absent(parts, Candidate(n))
  {
    if forall m :: 0 <= m < U32_LIMIT ==> !Absent(parts, Candidate(m)) {
      SearchBound(parts, U32_LIMIT);
    }
  }

  // ----- the encoding

  /** A header value as written: a quote or line break becomes an underscore. */
  function Quote(s: bytes): (q: bytes)
    ensures |q| == |s|
    ensures forall i :: 0 <= i < |s| ==>
      q[i] == if s[i] in {QUOTE, CR, LF} then UNDERSCORE else s[i]
  {
    seq(|s|, i requires 0 <= i < |s| => if s[i] in {QUOTE, CR, LF} then UNDERSCORE else s[i])
  }

  function DispositionLine(part: FormPart): bytes {
    DISPOSITION + Quote(part.name) + [QUOTE]
    + (if part.filename.Some? then FILENAME + Quote(part.filename.value) + [QUOTE] else [])
  }

  function TypeLine(contentType: bytes): bytes {
    CONTENT_TYPE + contentType
  }

  function TypeHeader(part: FormPart): bytes {
    if part.contentType.Some? then TypeLine(part.contentType.value) + CRLF else []
  }

  /** A part as it stands between two delimiters. */
  function Segment(part: FormPart): bytes {
    CRLF + (DispositionLine(part) + (CRLF + (TypeHeader(part) + (CRLF + part.data))))
  }

  function Delimiter(boundary: bytes): bytes {
    CRLF + DASHES + boundary
  }

  /** The body after a leading line break: every part behind a delimiter, then the last one. */
  function Encoded(parts: seq<FormPart>, boundary: bytes): bytes {
    if parts == [] then Delimiter(boundary) + (DASHES + CRLF)
    else Delimiter(boundary) + (Segment(parts[0]) + Encoded(parts[1..], boundary))
  }

  /** The bytes one turn of the encoder's loop adds. */
  function Written(part: FormPart, boundary: bytes): bytes {
    DASHES + boundary + CRLF + DispositionLine(part) + CRLF + TypeHeader(part) + CRLF + part.data + CRLF
  }

  lemma RegroupPart(n: bytes, s: bytes, b: bytes, d: bytes, x: bytes, data: bytes)
    ensures n + (s + b + n + d + n + x + n + data + n)
         == (n + s + b) + (n + (d + (n + (x + (n + data))))) + n
  {
    var tail := d + (n + (x + (n + (data + n))));
    var o := s + b + n;
    assert o + d + n + x + n + data + n == s + (b + (n + tail)) by {
      Regroup(o + d + n + x + n, data, n);
      Regroup(o + d + n + x, n, data + n);
      Regroup(o + d + n, x, n + (data + n));
      Regroup(o + d, n, x + (n + (data + n)));
      Regroup(o, d, n + (x + (n + (data + n))));
      Regroup(s + b, n, tail);
      Regroup(s, b, n + tail);
    }
    var inner := x + (n + data);
    assert n + (d + (n + inner)) + n == n + tail by {
      Regroup(n, d + (n + inner), n);
      Regroup(d, n + inner, n);
      Regroup(n, inner, n);
      Regroup(x, n + data, n);
      Regroup(n, data, n);
    }
    Regroup(n + s + b, n + (d + (n + inner)), n);
    Regroup(n + s, b, n + tail);
    Regroup(n, s, b + (n + tail));
  }

  /** What was written ends in the line break the next delimiter begins with. */
  lemma PartWritten(part: FormPart, boundary: bytes, before: bytes, start: bytes, tail: bytes)
    requires CRLF + start == before + CRLF
    ensures CRLF + (start + Written(part, boundary)) == (before + Delimiter(boundary) + Segment(part)) + CRLF
    ensures before + (Delimiter(boundary) + (Segment(part) + tail))
         == (before + Delimiter(boundary) + Segment(part)) + tail
  {
    hide DispositionLine, TypeHeader;
    var d, g := Delimiter(boundary), Segment(part);
    RegroupPart(CRLF, DASHES, boundary, DispositionLine(part), TypeHeader(part), part.data);
    var w := Written(part, boundary);
    assert CRLF + w == d + g + CRLF;
    hide Delimiter, Segment, Written;
    Regroup(CRLF, start, w);
    Regroup(before, CRLF, w);
    Regroup(before, d + g, CRLF);
    Regroup(before, d, g);
    Regroup(before, d, g + tail);
    Regroup(before + d, g, tail);
  }

  lemma LastWritten(boundary: bytes, before: bytes, start: bytes)
    requires CRLF + start == before + CRLF
    ensures CRLF + (start + (DASHES + boundary + DASHES + CRLF)) == before + (Delimiter(boundary) + (DASHES + CRLF))
  {
    var w := DASHES + boundary + DASHES + CRLF;
    Regroup(CRLF, start, w);
    Regroup(before, CRLF, w);
    assert CRLF + w == Delimiter(boundary) + (DASHES + CRLF);
  }

  /** Build the body: the parts behind delimiters, in order. */
  method Encode(parts: seq<FormPart>) returns (r: Option<RawBody>)
    ensures r.None? <==> forall n :: 0 <= n < U32_LIMIT ==> !Absent(parts, Candidate(n))
    ensures r.Some? ==> exists n :: Chosen(parts, n, r.value)
  {
    var n := ChooseBoundary(parts);
    if n.None? {
      return None;
    }
    var boundary := Candidate(n.value);
    hide Segment, Delimiter, DispositionLine, TypeHeader;
    var content := [];
    ghost var before := [];
    var k := 0;
    assert CRLF + [] == [] + CRLF;
    while k < |parts|
      invariant 0 <= k <= |parts|
      invariant CRLF + content == before + CRLF
      invariant Encoded(parts, boundary) == before + Encoded(parts[k..], boundary)
    {
      var part := parts[k];
      ghost var start := content;
      content := content + (DASHES + boundary + CRLF + DispositionLine(part) + CRLF
                            + TypeHeader(part) + CRLF + part.data + CRLF);
      PartWritten(part, boundary, before, start, Encoded(parts[k + 1..], boundary));
      before := before + Delimiter(boundary) + Segment(part);
      assert parts[k..][1..] == parts[k + 1..];
      k := k + 1;
    }
    var body := content + (DASHES + boundary + DASHES + CRLF);
    LastWritten(boundary, before, content);
    assert CRLF + body == Encoded(parts, boundary);
    r := Some(RawBody(MEDIA_TYPE + boundary, body));
    assert Chosen(parts, n.value, r.value);
  }

  /** The body uses the first free candidate, and names it. */
  ghost predicate Chosen(parts: seq<FormPart>, n: nat, body: RawBody) {
    && n < U32_LIMIT && Absent(parts, Candidate(n))
    && (forall m :: 0 <= m < n ==> !Absent(parts, Candidate(m)))
    && body.contentType == MEDIA_TYPE + Candidate(n)
    && CRLF + body.content == Encoded(parts, Candidate(n))
  }
}
