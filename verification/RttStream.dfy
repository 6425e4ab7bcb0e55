/** The async client's RTT stream (src/async_client.rs): a head read a line at a
time through the buffered reader that then feeds the body decoder. */
module RttStream {
  import opened Bytes
  import opened TokenStore
  import opened GatewayProtocol
  import opened Gateway
  import opened GatewayAlone
  import opened ResponseHead
  import opened HeaderFields
  import opened AsyncDecoder
  import ChunkedSpec
  import Tunnel

  /** Take the buffered bytes through the first LF. */
  method TakePiece(reader: BufReader) returns (piece: bytes, done: bool)
    requires reader.buffered != [] && reader.Fits()
    modifies reader`buffered
    ensures reader.Fits()
    ensures old(reader.Rest()) == piece + reader.Rest() && piece != []
    ensures if done then EndsLine(piece) else NoLf(piece)
  {
    var at := ChunkedSpec.LineEnd(reader.buffered);
    done := at < |reader.buffered|;
    var used := Min(at + 1, |reader.buffered|);
    piece := reader.buffered[..used];
    reader.Consume(used);
  }

  /** Read through the next LF, or to the close, however long that takes. */
  method ReadUntilLf(reader: BufReader) returns (line: bytes)
    requires reader.Fits()
    modifies reader
    ensures reader.Fits()
    ensures old(reader.Rest()) == line + reader.Rest()
    ensures |line| == Min(ChunkedSpec.LineEnd(old(reader.Rest())) + 1, |old(reader.Rest())|)
    ensures |reader.script| <= |old(reader.script)|
  {
    hide NoLf, EndsLine, ChunkedSpec.LineEnd;
    ghost var s := reader.Rest();
    line := [];
    NothingRead(s);
    while true
      invariant s == line + reader.Rest() && NoLf(line) && reader.Fits()
      invariant |reader.script| <= |old(reader.script)|
      decreases |reader.script| + |reader.Rest()|
    {
      var pending := reader.PollFillBuf();
      if pending {
        continue;
      }
      if reader.buffered == [] {
        assert s == line;
        LineIs(s, line, []);
        return;
      }
      var piece, done := TakePiece(reader);
      Regroup(line, piece, reader.Rest());
      LineGrows(line, piece);
      line := line + piece;
      if done {
        LineIs(s, line, reader.Rest());
        return;
      }
    }
  }

  predicate NoLf(line: bytes) {
    LF !in line
  }

  predicate EndsLine(line: bytes) {
    line != [] && line[|line| - 1] == LF && NoLf(line[..|line| - 1])
  }

  lemma LineGrows(line: bytes, piece: bytes)
    requires NoLf(line)
    ensures NoLf(piece) ==> NoLf(line + piece)
    ensures EndsLine(piece) ==> EndsLine(line + piece)
  {
    if EndsLine(piece) {
      assert (line + piece)[..|line + piece| - 1] == line + piece[..|piece| - 1];
    }
  }

  lemma LineIs(s: bytes, line: bytes, rest: bytes)
    requires s == line + rest && (EndsLine(line) || (NoLf(line) && rest == []))
    ensures |line| == Min(ChunkedSpec.LineEnd(s) + 1, |s|)
  {
    if EndsLine(line) {
      assert forall i :: 0 <= i < |line| - 1 ==> s[i] == line[..|line| - 1][i];
      ChunkedSpec.LineEndIs(s, |line| - 1);
    }
  }

  /** No blank line ends in the first `n` bytes. */
  ghost predicate NoBlankWithin(s: bytes, n: int) {
    forall j {:trigger OccursAt(s, BLANK, j)} :: 0 <= j && j + 4 <= n ==> !OccursAt(s, BLANK, j)
  }

  /** `n` bytes are whole lines, or everything there is. */
  predicate AtLineEnd(s: bytes, n: nat) {
    n <= |s| && (n == 0 || s[n - 1] == LF || n == |s|)
  }

  predicate EndsBlank(raw: bytes) {
    |raw| >= 4 && raw[|raw| - 4..] == BLANK
  }

  lemma BlankEnds(s: bytes, raw: bytes)
    requires raw <= s
    ensures EndsBlank(raw) <==> OccursAt(s, BLANK, |raw| - 4)
    ensures NoBlankWithin(s, |raw| - 1) && !EndsBlank(raw) ==> NoBlankWithin(s, |raw|)
    ensures NoBlankWithin(s, |raw| - 1) && EndsBlank(raw) ==> HeadEnd(s) == Some(|raw|)
  {
    if |raw| >= 4 {
      assert s[|raw| - 4..|raw|] == raw[|raw| - 4..];
    }
    if NoBlankWithin(s, |raw| - 1) && EndsBlank(raw) {
      FindIs(s, BLANK, |raw| - 4);
    }
  }

  /** Past the limit at the end of a line, no head can still end within it. */
  lemma LimitPassed(s: bytes, n: nat)
    requires AtLineEnd(s, n) && NoBlankWithin(s, n) && n >= MAX_HEAD_BYTES
    ensures HeadEnd(s).None? || HeadEnd(s).value > MAX_HEAD_BYTES + 1
  {
    var at := Find(s, BLANK, 0);
    if n < |s| && at.Some? {
      assert s[at.value..at.value + 4][2] == s[at.value + 2];
    }
  }

  /** One more line: a head can end only where the line does, and only with a
  line that is itself empty. */
  lemma LineJoins(s: bytes, n: nat, m: nat)
    requires AtLineEnd(s, n) && NoBlankWithin(s, n) && n < m <= |s|
    requires m - n == Min(ChunkedSpec.LineEnd(s[n..]) + 1, |s[n..]|)
    ensures AtLineEnd(s, m) && NoBlankWithin(s, m - 1)
    ensures OccursAt(s, BLANK, m - 4) ==> m <= n + 2
  {
    assert forall i :: n <= i < m - 1 ==> s[i] == s[n..][i - n] != LF;
    forall j {:trigger OccursAt(s, BLANK, j)} | n - 4 < j <= m - 4 && 0 <= j
      ensures OccursAt(s, BLANK, j) ==> j == m - 4 && m <= n + 2
    {
      assert s[j..j + 4][3] == s[j + 3] && s[j..j + 4][1] == s[j + 1];
    }
  }

  /** Take a head off the reader. A line that starts within the limit is read
  whole, so the limit is one byte more than a tunnel's. */
  method ReadHead(reader: BufReader) returns (head: Option<bytes>)
    requires reader.Fits()
    modifies reader
    ensures reader.Fits()
    ensures var s := old(reader.Rest());
      match HeadEnd(s)
      case None => head == None
      case Some(n) =>
        if n <= MAX_HEAD_BYTES + 1 then head == Some(s[..n]) && reader.Rest() == s[n..] else head == None
  {
    hide ChunkedSpec.LineEnd, NoBlankWithin, AtLineEnd, OccursAt, HeadEnd, EndsBlank, BLANK;
    ghost var s := reader.Rest();
    var raw: bytes := [];
    NothingRead(s);
    while !EndsBlank(raw)
      invariant reader.Fits() && |raw| <= |s| && raw == s[..|raw|] && reader.Rest() == s[|raw|..]
      invariant AtLineEnd(s, |raw|) && NoBlankWithin(s, |raw| - 1)
      invariant EndsBlank(raw) ==> |raw| <= MAX_HEAD_BYTES + 1
      decreases |reader.Rest()|
    {
      BlankEnds(s, raw);
      if |raw| >= MAX_HEAD_BYTES {
        LimitPassed(s, |raw|);
        return None;
      }
      ghost var n := |raw|;
      var line := ReadUntilLf(reader);
      if line == [] {
        NoHead(s);
        return None;
      }
      Advance(s, n, line, reader.Rest());
      raw := raw + line;
      LineJoins(s, n, |raw|);
      BlankEnds(s, raw);
    }
    BlankEnds(s, raw);
    return Some(raw);
  }

  lemma Advance(s: bytes, n: nat, line: bytes, rest: bytes)
    requires n <= |s| && s[n..] == line + rest
    ensures n + |line| <= |s| && s[..n] + line == s[..n + |line|] && rest == s[n + |line|..]
  {
    assert s == s[..n] + (line + rest);
  }

  lemma NothingRead(s: bytes)
    ensures AtLineEnd(s, 0) && NoBlankWithin(s, -1) && NoLf([])
  {
  }

  lemma NoHead(s: bytes)
    requires NoBlankWithin(s, |s|)
    ensures HeadEnd(s) == None
  {
  }

  // ----- opening the stream

  datatype Connection = Unreachable | Connected(raw: bytes, script: seq<Poll>)

  datatype StreamAnswer =
    | Closed
    | NotHttp
    | Streams(framing: Framing, rest: bytes)
    | Denial(status: nat, url: string)
    | Refused(status: nat)

  /** What a server that sends `raw` makes of the request. */
  function StreamOf(raw: bytes): StreamAnswer {
    match HeadEnd(raw)
    case None => Closed
    case Some(n) =>
      if n > MAX_HEAD_BYTES + 1 then Closed
      else
        match HeadOf(raw[..n])
        case None => NotHttp
        case Some(head) => Meant(head, raw[n..])
  }

  function Meant(head: Head, rest: bytes): StreamAnswer {
    if head.status == 200 then Streams(FramingOf(head.chunked, head.length), rest)
    else if IsDenial(head.status) && head.discovery.Some? then
      Denial(head.status, Tunnel.AsString(head.discovery.value))
    else Refused(head.status)
  }

  function StreamAt(connections: seq<Connection>, i: nat): StreamAnswer {
    if i < |connections| && connections[i].Connected? then StreamOf(connections[i].raw) else Closed
  }

  /** A request's outcome as the protocol sees it. */
  function AsAnswer(a: StreamAnswer): Answer {
    match a
    case Closed => TransportError
    case Denial(status, url) => Answered(status, Some(url), [])
    case _ => Answered(200, None, [])
  }

  function AnswersOf(connections: seq<Connection>): seq<Answer> {
    seq(|connections|, i requires 0 <= i < |connections| => AsAnswer(StreamAt(connections, i)))
  }

  /** An answer is a denial for the protocol if and only if it is one here. */
  lemma DenialsAreDenials(all: seq<Connection>)
    ensures AnswerAt(AnswersOf(all), 0) == AsAnswer(StreamAt(all, 0))
    ensures DenialOf(AsAnswer(StreamAt(all, 0))) ==
      if StreamAt(all, 0).Denial? then Some(StreamAt(all, 0).url) else None
    ensures AnswersOf(all[Min(1, |all|)..]) == Tail(AnswersOf(all))
    ensures StreamAt(all[Min(1, |all|)..], 0) == StreamAt(all, 1)
    ensures all[Min(1, |all|)..][Min(1, |all[Min(1, |all|)..]|)..] == all[Min(2, |all|)..]
  {
    hide HeadEnd, HeadOf;
  }

  /** What a call of the protocol comes to on the answers of connections. */
  lemma StreamFacts(cfg: Config, s: Shared, env: Env, all: seq<Connection>)
    requires env.answers == AnswersOf(all)
    ensures Whole(cfg, s, env) == Called(cfg, s, env)
    ensures var (s1, call, _) := Called(cfg, s, env);
      && 1 <= |call.sends| <= 2
      && (|call.sends| == 2 <==>
            && StreamAt(all, 0).Denial? && StreamAt(all, 0).status == 401 && cfg.pinned.None?
            && DenialOf(AnswerAt(env.answers, 0)).Some? && Second(cfg, s, env).Some?)
      && (cfg.pinned.Some? ==> call.sends == [Some(Credential(cfg.pinned.value, Pinned))] && s1.store == s.store)
  {
    DenialsAreDenials(all);
    WholeIsComplete(cfg, s, env);
    CallFacts(cfg, s, env);
    if cfg.pinned.Some? {
      StartIsSafe(cfg);
      PinnedCall(cfg, s, START, env);
    }
    hide Whole, Complete, Safe, Current, Second, StreamAt, AnswersOf, DenialOf;
  }

  /** A body that has exactly the bytes after the head still to decode. */
  ghost predicate Fed(body: AsyncBody, answer: StreamAnswer)
    reads body, body.inner
  {
    && answer.Streams? && body.Valid() && body.Healthy() && body.inner.capacity == BUFFER_SIZE
    && body.framing == answer.framing && body.Rest() == answer.rest
  }

  /** The framing that a head's fields call for: chunked if the last coding is,
  else the length declared, else to the close. */
  ghost predicate Frames(coding: Option<bytes>, length: Option<bytes>, framing: Framing) {
    if coding.Some? && EndsInChunked(coding.value) then framing == Chunked(ChunkedSpec.Size)
    else if length.Some? then framing.Length? && Declares(length, framing.left)
    else framing == UntilClose
  }

  /** What is read of the bytes after a head: a steady chunked body is decoded,
  one with a length ends with it or is cut short, any other ends at the close. */
  ghost predicate ReadAs(framing: Framing, rest: bytes, d: ChunkedSpec.Decoded) {
    match framing
    case Chunked(state) =>
      ChunkedSpec.Agreeable(state, rest, 8192) ==> d == ChunkedSpec.Decode(state, rest, ChunkedSpec.Strict)
    case Length(n) =>
      && d.payload == rest[..Min(n, |rest|)]
      && d.outcome == if n <= |rest| then ChunkedSpec.Clean else ChunkedSpec.Failed(ChunkedSpec.UnexpectedEof)
    case UntilClose => d == ChunkedSpec.Decoded(rest, ChunkedSpec.Clean)
  }

  /** Main result: a response that opens the stream reaches the decoder with
  the framing its head calls for and every byte after the head; a denial is
  recognised by its status and the last discovery header. */
  lemma PrintedStream(p: Printed, rest: bytes)
    requires p.Valid() && Utf8(p.Text()) && |p.Text()| <= 65537
    ensures var r, url := StreamOf(p.Text() + rest), p.Value(DISCOVERY, |p.headers|);
      if p.status == 200 then
        && r.Streams? && r.rest == rest
        && Frames(p.Value(TRANSFER_ENCODING, |p.headers|), p.Value(CONTENT_LENGTH, |p.headers|), r.framing)
      else if p.status in {401, 403, 503} && url.Some? then r == Denial(p.status, Tunnel.AsString(url.value))
      else r == Refused(p.status)
  {
    hide HeadEnd, HeadOf, Utf8, Printed.Text, Printed.Value, Declares, EndsInChunked;
    PrintedReads(p, rest);
    PrintedSays(p);
    var text := p.Text();
    assert (text + rest)[..|text|] == text && (text + rest)[|text|..] == rest;
  }

  /** A longer head opens nothing, whatever it says. */
  lemma LongHead(p: Printed, rest: bytes)
    requires p.Valid() && |p.Text()| > 65537
    ensures StreamOf(p.Text() + rest) == Closed
  {
    hide HeadEnd, HeadOf, Utf8, Printed.Text;
    PrintedReads(p, rest);
  }

  class Client {
    const auth: GatewayAuth
    const world: World
    var connections: seq<Connection>

    constructor (auth: GatewayAuth, connections: seq<Connection>)
      ensures this.auth == auth && this.world == auth.world && this.connections == connections
    {
      this.auth, this.world, this.connections := auth, auth.world, connections;
    }

    predicate Valid()
      reads this
    {
      world == auth.world
    }

    /** One request on a connection of its own. */
    method StreamOnce() returns (r: StreamAnswer, body: AsyncBody?)
      requires Valid()
      modifies this`connections, auth`authUrl, world`store
      ensures r == StreamAt(old(connections), 0)
      ensures connections == old(connections)[Min(1, |old(connections)|)..]
      ensures r.Streams? <==> body != null
      ensures body != null ==> fresh(body) && fresh(body.inner) && Fed(body, r)
      ensures auth.State() == if r.Denial? then KnowingServer(auth.Cfg(), old(auth.State()), r.url)
                              else old(auth.State())
    {
      hide HeadEnd, HeadOf, Learned;
      body := null;
      if connections == [] {
        return Closed, null;
      }
      var c := connections[0];
      connections := connections[1..];
      if c.Unreachable? {
        return Closed, null;
      }
      var reader := new BufReader(BUFFER_SIZE, [], c.raw, c.script);
      assert reader.Rest() == c.raw;
      var raw := ReadHead(reader);
      if raw.None? {
        return Closed, null;
      }
      var head := ParseHead(raw.value);
      if head.None? {
        return NotHttp, null;
      }
      if head.value.status == 200 {
        body := new AsyncBody(reader, head.value.chunked, head.value.length);
        return Streams(body.framing, reader.buffered + reader.unread), body;
      }
      if IsDenial(head.value.status) && head.value.discovery.Some? {
        var url := Tunnel.AsString(head.value.discovery.value);
        auth.LearnAuthServer(url);
        return Denial(head.value.status, url), null;
      }
      return Refused(head.value.status), null;
    }

    /** What the protocol's calls will be supplied with: the world's clock and
    auth servers, and the connections for a gateway. */
    ghost function Scripts(): Env
      reads this`connections, world`clock, world`refreshes, world`answers
    {
      world.Scripts().(answers := AnswersOf(connections))
    }

    /** Open the stream, after a 401 once more with another credential. It is the
    protocol's call on the answers that the connections give, but that the
    server of a second denial is recorded too. */
    method Stream() returns (r: StreamAnswer, body: AsyncBody?, sends: seq<Option<Credential>>)
      requires Valid()
      modifies this`connections, auth`token, auth`authUrl
      modifies world`clock, world`refreshes, world`store
      ensures var (s1, call, env1) := Called(auth.Cfg(), old(auth.State()), old(Scripts()));
        && sends == call.sends && Scripts() == env1
        && auth.State() == (if |sends| == 2 && r.Denial? then KnowingServer(auth.Cfg(), s1, r.url) else s1)
      ensures 1 <= |sends| <= 2
      ensures |sends| == 2 <==>
        var first := StreamAt(old(connections), 0);
        && first.Denial? && first.status == 401 && auth.staticToken.None?
        && DenialOf(AnswerAt(old(Scripts()).answers, 0)).Some?
        && Second(auth.Cfg(), old(auth.State()), old(Scripts())).Some?
      ensures connections == old(connections)[Min(|sends|, |old(connections)|)..]
      ensures r == StreamAt(old(connections), |sends| - 1)
      ensures r.Streams? <==> body != null
      ensures body != null ==> fresh(body) && fresh(body.inner) && Fed(body, r)
      ensures auth.staticToken.Some? ==>
        sends == [Some(Credential(auth.staticToken.value, Pinned))] && world.store == old(world.store)
    {
      hide StreamOf, Called, Current, Resolved, Learned, DenialOf, AnswersOf, AnswerAt, Second, StreamAt;
      StreamFacts(auth.Cfg(), auth.State(), Scripts(), connections);
      DenialsAreDenials(connections);
      ChoosingIgnoresAnswers(auth.Cfg(), auth.State(), world.Scripts(), AnswersOf(connections));
      var first := auth.CurrentToken();
      r, body := StreamOnce();
      sends := [first];
      if r.Denial? && r.status == 401 && auth.staticToken.None? {
        ResolvingIgnoresAnswers(auth.Cfg(), auth.State(), world.Scripts(), r.url, TokenOf(first), AnswersOf(connections));
        var retry := auth.ResolveToken(r.url, TokenOf(first));
        if retry.Some? {
          DenialsAreDenials(connections);
          r, body := StreamOnce();
          sends := [first, retry];
        }
      }
    }

    /** Open the stream and read it to its end: wherever the connection was
    pending and however it split head and body, what is read is what the bytes
    after the head mean. */
    method StreamToEnd(sizes: seq<nat>) returns (r: StreamAnswer, d: Option<ChunkedSpec.Decoded>)
      requires Valid() && forall i :: 0 <= i < |sizes| ==> sizes[i] > 0
      modifies this`connections, auth`token, auth`authUrl
      modifies world`clock, world`refreshes, world`store
      ensures exists k: nat :: k < 2 && r == StreamAt(old(connections), k)
      ensures r.Streams? <==> d.Some?
      ensures r.Streams? && Steady(r.framing, r.rest, BUFFER_SIZE) ==>
        d == Some(Body(r.framing, r.rest, ChunkedSpec.Strict))
      ensures r.Streams? ==> ReadAs(r.framing, r.rest, d.value)
      ensures old(connections) != [] && !StreamAt(old(connections), 0).Denial? ==> r == StreamAt(old(connections), 0)
    {
      hide StreamOf, ChunkedSpec.Decode, ChunkedSpec.Agreeable;
      ghost var all := connections;
      var body, sends;
      r, body, sends := Stream();
      assert r == StreamAt(all, |sends| - 1);
      d := None;
      if body != null {
        var whole := Collect(body, sizes);
        d := Some(whole);
      }
    }
  }

  /** Main result: from a printed 200 to the caller. Head and body come in any
  pieces, with any waits, and what is read is the chunked body decoded, the
  length declared, or everything to the close, as the head calls for. */
  method PrintedToEnd(p: Printed, rest: bytes, script: seq<Poll>, sizes: seq<nat>, store: Json, boxHost: string,
                      pinned: Option<string>, clock: seq<int>, frozen: int, refreshes: seq<Option<Outcome>>,
                      expires: string -> int)
    returns (r: StreamAnswer, d: Option<ChunkedSpec.Decoded>)
    requires p.Valid() && Utf8(p.Text()) && |p.Text()| <= 65537 && p.status == 200
    requires forall i :: 0 <= i < |sizes| ==> sizes[i] > 0
    ensures r.Streams? && d.Some? && ReadAs(r.framing, rest, d.value)
    ensures Frames(p.Value(TRANSFER_ENCODING, |p.headers|), p.Value(CONTENT_LENGTH, |p.headers|), r.framing)
  {
    hide Utf8, Printed.Text, Printed.Value, Frames, ReadAs, StreamOf, Steady, Body;
    var world := new World(store, clock, frozen, refreshes, [], expires);
    var auth := new GatewayAuth(world, boxHost, pinned);
    var text := p.Text();
    var connections := [Connected(text + rest, script)];
    var client := new Client(auth, connections);
    PrintedStream(p, rest);
    r, d := client.StreamToEnd(sizes);
  }
}
