/** Debug tunnels: CONNECT through the gateway (src/tunnel.rs, src/client.rs;
the async client runs the same loops). */
module Tunnel {
  import opened Bytes
  import opened TokenStore
  import opened GatewayProtocol
  import opened Gateway
  import opened GatewayAlone
  import opened Multipart
  import opened ResponseHead
  import opened HeaderFields

  const MAX_BODY_BYTES := 4096

  /** Times are in nanoseconds. */
  const WAIT := 5_000_000_000
  const RETRY := 250_000_000

  datatype Refusal =
    | Denial(status: nat, url: string)
    | NotDebugPort(body: bytes)
    | NothingListening(body: bytes)
    | Unsupported(answered: Option<nat>)

  /** What one CONNECT came to; an open tunnel has bytes left to read. */
  datatype Attempt = Open(rest: bytes) | Refused(refusal: Refusal) | NoAnswer

  function AsString(b: bytes): (s: string)
    ensures |s| == |b| && forall i :: 0 <= i < |b| ==> s[i] as int == b[i]
  {
    seq(|b|, i requires 0 <= i < |b| => b[i] as char)
  }

  function Classify(head: Head, body: bytes): Refusal {
    if IsDenial(head.status) && head.discovery.Some? then Denial(head.status, AsString(head.discovery.value))
    else if head.status == 403 then NotDebugPort(body)
    else if head.status == 502 then NothingListening(body)
    else Unsupported(Some(head.status))
  }

  // ----- the handshake on one socket

  class Socket {
    var incoming: bytes

    constructor (incoming: bytes)
      ensures this.incoming == incoming
    {
      this.incoming := incoming;
    }

    /** Read at most `want` bytes; no more than `cut` arrive together. */
    method Read(want: nat, cut: nat) returns (got: bytes)
      modifies this
      ensures got == old(incoming)[..Min(want, Min(cut, |old(incoming)|))]
      ensures old(incoming) == got + incoming
    {
      var n := Min(want, Min(cut, |incoming|));
      got, incoming := incoming[..n], incoming[n..];
    }
  }

  /** Take a head off a socket, a byte at a time. */
  method ReadHead(socket: Socket) returns (head: Option<bytes>)
    modifies socket
    ensures var s := old(socket.incoming);
      match HeadEnd(s)
      case None => head == None
      case Some(n) =>
        if n <= MAX_HEAD_BYTES then head == Some(s[..n]) && socket.incoming == s[n..] else head == None
  {
    ghost var s := socket.incoming;
    var taken: bytes := [];
    while !(|taken| >= 4 && taken[|taken| - 4..] == BLANK)
      invariant s == taken + socket.incoming && |taken| <= MAX_HEAD_BYTES
      invariant forall j {:trigger OccursAt(s, BLANK, j)} :: 0 <= j && j + 4 < |taken| ==> !OccursAt(s, BLANK, j)
      decreases |socket.incoming|
    {
      assert forall j {:trigger OccursAt(s, BLANK, j)} :: 0 <= j && j + 4 <= |taken| ==> !OccursAt(s, BLANK, j) by {
        if |taken| >= 4 {
          assert s[|taken| - 4..|taken|] == taken[|taken| - 4..];
        }
      }
      if |taken| >= MAX_HEAD_BYTES {
        return None;
      }
      var byte := socket.Read(1, 1);
      if byte == [] {
        return None;
      }
      Regroup(taken, byte, socket.incoming);
      taken := taken + byte;
    }
    assert s[|taken| - 4..|taken|] == taken[|taken| - 4..];
    FindIs(s, BLANK, |taken| - 4);
    return Some(taken);
  }

  /** What a server that sends `s` makes of a CONNECT. */
  function Attempted(s: bytes, cut: nat): Attempt {
    match HeadEnd(s)
    case None => Refused(Unsupported(None))
    case Some(n) =>
      var head := HeadOf(s[..n]);
      if n > MAX_HEAD_BYTES || head.None? then Refused(Unsupported(None))
      else if head.value.status == 200 then Open(s[n..])
      else Refused(Classify(head.value, s[n..][..Min(BodyLength(head.value), Min(cut, |s| - n))]))
  }

  function BodyLength(head: Head): nat {
    match head.length
    case Some(n) => Min(n, MAX_BODY_BYTES)
    case None => 0
  }

  /** One CONNECT. A tunnel that opens has every byte after the head, and no
  other, still in its socket. */
  method Handshake(socket: Socket, cut: nat) returns (r: Attempt)
    modifies socket
    ensures r == Attempted(old(socket.incoming), cut)
    ensures r.Open? ==> socket.incoming == r.rest
  {
    hide HeadEnd, HeadOf;
    var raw := ReadHead(socket);
    if raw.None? {
      return Refused(Unsupported(None));
    }
    var head := ParseHead(raw.value);
    if head.None? {
      return Refused(Unsupported(None));
    }
    if head.value.status == 200 {
      return Open(socket.incoming);
    }
    var body := socket.Read(BodyLength(head.value), cut);
    return Refused(Classify(head.value, body));
  }

  /** Main result: whatever a tunnel's far end sends after the head that opens
  it, a blank line included, is the caller's, untouched. Any other status is a
  refusal: a denial by its status and the last discovery header; a port that
  is not a debug port, or with nothing listening, with the start of the body;
  or a box that does no tunnels. */
  lemma PrintedOutcome(p: Printed, rest: bytes, cut: nat, n: nat)
    requires p.Valid() && Utf8(p.Text()) && |p.Text()| <= 65536
    requires Declares(p.Value(CONTENT_LENGTH, |p.headers|), n)
    ensures var url := p.Value(DISCOVERY, |p.headers|);
      var body := rest[..Min(n, Min(4096, Min(cut, |rest|)))];
      Attempted(p.Text() + rest, cut) ==
        if p.status == 200 then Open(rest)
        else if p.status in {401, 403, 503} && url.Some? then Refused(Denial(p.status, AsString(url.value)))
        else if p.status == 403 then Refused(NotDebugPort(body))
        else if p.status == 502 then Refused(NothingListening(body))
        else Refused(Unsupported(Some(p.status)))
  {
    hide HeadEnd, HeadOf, Utf8, Printed.Text, Printed.Value, Declares;
    PrintedReads(p, rest);
    PrintedSays(p);
    var text := p.Text();
    assert (text + rest)[..|text|] == text && (text + rest)[|text|..] == rest;
    var head := HeadOf(text).value;
    DeclaredLength(p.Value(CONTENT_LENGTH, |p.headers|), head.length, n);
  }

  lemma DeclaredLength(field: Option<bytes>, length: Option<nat>, n: nat)
    requires Declares(field, n) && (field.Some? <==> length.Some?)
    requires length.Some? ==> Declares(field, length.value)
    ensures n == match length
                 case Some(m) => m
                 case None => 0
  {
    if field.Some? {
      LengthExactly(field.value, n);
      LengthExactly(field.value, length.value);
    }
    hide Declares;
  }

  /** A longer head is no tunnel, whatever it says. */
  lemma LongHead(p: Printed, rest: bytes, cut: nat)
    requires p.Valid() && |p.Text()| > 65536
    ensures Attempted(p.Text() + rest, cut) == Refused(Unsupported(None))
  {
    hide HeadEnd, HeadOf, Utf8, Printed.Text;
    PrintedReads(p, rest);
  }

  // ----- connections, the clock and the retry

  datatype Connection = Unreachable | Connected(incoming: bytes, cut: nat)

  function AttemptAt(connections: seq<Connection>, i: nat): Attempt {
    if i < |connections| && connections[i].Connected? then Attempted(connections[i].incoming, connections[i].cut)
    else NoAnswer
  }

  /** A CONNECT's outcome as the protocol sees it. */
  function AsAnswer(a: Attempt): Answer {
    match a
    case NoAnswer => TransportError
    case Refused(Denial(status, url)) => Answered(status, Some(url), [])
    case _ => Answered(200, None, [])
  }

  function AnswersOf(connections: seq<Connection>): seq<Answer> {
    seq(|connections|, i requires 0 <= i < |connections| => AsAnswer(AttemptAt(connections, i)))
  }

  /** An attempt is a denial for the protocol if and only if it is one here. */
  lemma DenialsAreDenials(all: seq<Connection>, used: nat)
    ensures AnswerAt(AnswersOf(all), used) == AsAnswer(AttemptAt(all, used))
    ensures var a := AttemptAt(all, used);
      DenialOf(AsAnswer(a)) == if a.Refused? && a.refusal.Denial? then Some(a.refusal.url) else None
    ensures AnswersOf(After(all, 1)) == Tail(AnswersOf(all))
  {
    hide HeadEnd, HeadOf;
  }

  /** What a round of one or two CONNECTs came to. */
  datatype RoundEnd = Opened(rest: bytes) | Stands(refusal: Refusal) | Rejected(reply: Reply) | Failed

  /** The last attempt of a round decides it. */
  function EndOf(last: Attempt, sentToken: bool): RoundEnd {
    match last
    case Open(rest) => Opened(rest)
    case Refused(Denial(status, url)) => Rejected(Denied(status, url, sentToken))
    case Refused(refusal) => Stands(refusal)
    case NoAnswer => Failed
  }

  /** A round: the credentials its CONNECTs carried, how it ended, and the time then. */
  datatype Round = Round(sends: seq<Option<Credential>>, end: RoundEnd, at: nat)

  datatype Result = Tunnelled(rest: bytes) | Direct(rest: bytes) | NoTunnel(refusal: Refusal) | Error(end: RoundEnd)

  /** Retrying goes on only after a 502, only while it can end in time, and
  only after a pause. */
  predicate Paced(rounds: seq<Round>, start: nat) {
    && (rounds != [] ==> start <= rounds[0].at)
    && forall i :: 0 <= i < |rounds| - 1 ==>
         && rounds[i].end.Stands? && rounds[i].end.refusal.NothingListening?
         && rounds[i].at + 250_000_000 <= start + 5_000_000_000
         && rounds[i].at + 250_000_000 <= rounds[i + 1].at
  }

  lemma {:induction false} PausesAddUp(rounds: seq<Round>, start: nat, k: nat)
    requires Paced(rounds, start) && k < |rounds|
    ensures start + k * RETRY <= rounds[k].at
  {
    if k > 0 {
      PausesAddUp(rounds, start, k - 1);
      assert rounds[k - 1].at + RETRY <= rounds[k - 1 + 1].at;
    }
  }

  /** Main result: however slow or fast the clock, 21 rounds at most. */
  lemma AtMost21Rounds(rounds: seq<Round>, start: nat)
    requires Paced(rounds, start)
    ensures |rounds| <= 21
  {
    if |rounds| >= 2 {
      var k := |rounds| - 2;
      PausesAddUp(rounds, start, k);
      assert rounds[k].at + RETRY <= start + WAIT;
    }
  }

  /** Nothing but the pauses takes any time. */
  predicate OnTime(rounds: seq<Round>, start: nat) {
    forall i :: 0 <= i < |rounds| ==> rounds[i].at == start + i * 250_000_000
  }

  lemma EmptyRounds(start: nat, all: seq<Connection>, cfg: Config, s: Shared, env: Env)
    ensures Paced([], start) && Connects([]) == 0 && AllEndAs([], all)
    ensures Repeated(cfg, s, env, 0).1 == env && Played([], cfg, s, env, s)
  {
  }

  predicate Waited(round: Round, limit: nat) {
    round.end.Stands? && round.end.refusal.NothingListening? && round.at + RETRY <= limit
  }

  lemma PacedAppend(rounds: seq<Round>, round: Round, start: nat)
    requires Paced(rounds, start) && start <= round.at
    requires rounds != [] ==>
      Waited(rounds[|rounds| - 1], start + WAIT) && rounds[|rounds| - 1].at + RETRY <= round.at
    ensures Paced(rounds + [round], start)
  {
  }

  /** Each round sent the credentials of the protocol's call of its number, and
  the calls come to the state `last`. */
  predicate Played(rounds: seq<Round>, cfg: Config, s: Shared, env: Env, last: Shared) {
    && last == Repeated(cfg, s, env, |rounds|).0
    && forall i :: 0 <= i < |rounds| ==> rounds[i].sends == SendsOf(cfg, s, env, i)
  }

  function SendsOf(cfg: Config, s: Shared, env: Env, i: nat): (sends: seq<Option<Credential>>)
    ensures 1 <= |sends| <= 2
  {
    var (s1, env1) := Repeated(cfg, s, env, i);
    CallFacts(cfg, s1, env1);
    Called(cfg, s1, env1).1.sends
  }

  /** CONNECTs made in all. */
  function Connects(rounds: seq<Round>): nat {
    if rounds == [] then 0 else Connects(rounds[..|rounds| - 1]) + |rounds[|rounds| - 1].sends|
  }

  lemma PlayedAppend(rounds: seq<Round>, round: Round, cfg: Config, s: Shared, env: Env, s1: Shared, env1: Env)
    requires Played(rounds, cfg, s, env, s1) && env1 == Repeated(cfg, s, env, |rounds|).1
    requires round.sends == Called(cfg, s1, env1).1.sends
    ensures Played(rounds + [round], cfg, s, env, Called(cfg, s1, env1).0)
    ensures Repeated(cfg, s, env, |rounds| + 1).1 == Called(cfg, s1, env1).2
  {
    hide Called;
    var more := rounds + [round];
    assert SendsOf(cfg, s, env, |rounds|) == round.sends;
    assert Repeated(cfg, s, env, |more|) == (Called(cfg, s1, env1).0, Called(cfg, s1, env1).2);
    hide SendsOf, Repeated;
  }

  lemma TwoEach(rounds: seq<Round>, cfg: Config, s: Shared, env: Env, last: Shared)
    requires Played(rounds, cfg, s, env, last)
    ensures Connects(rounds) <= 2 * |rounds|
  {
    hide SendsOf, Repeated;
    AddUp(rounds);
  }

  lemma {:induction false} AddUp(rounds: seq<Round>)
    requires forall i :: 0 <= i < |rounds| ==> |rounds[i].sends| <= 2
    ensures Connects(rounds) <= 2 * |rounds|
  {
    if rounds != [] {
      AddUp(rounds[..|rounds| - 1]);
    }
  }

  lemma ConnectsAppend(rounds: seq<Round>, round: Round)
    ensures Connects(rounds + [round]) == Connects(rounds) + |round.sends|
  {
    assert (rounds + [round])[..|rounds|] == rounds;
  }

  /** What connecting to the published port comes to, on connection `i`. */
  function DirectEnd(connections: seq<Connection>, i: nat, refusal: Refusal, gated: bool): Result {
    if i < |connections| && connections[i].Connected? then Direct(connections[i].incoming)
    else if gated then NoTunnel(refusal)
    else Error(Failed)
  }

  /** The last round ended as its last connection answered. */
  predicate EndsAs(rounds: seq<Round>, all: seq<Connection>) {
    && rounds != []
    && rounds[|rounds| - 1].sends != []
    && Connects(rounds) >= |rounds[|rounds| - 1].sends|
    && rounds[|rounds| - 1].end == EndOf(AttemptAt(all, Connects(rounds) - 1), CarriedToken(rounds[|rounds| - 1]))
  }

  /** So did every round. */
  predicate AllEndAs(rounds: seq<Round>, all: seq<Connection>) {
    forall k :: 0 < k <= |rounds| ==> EndsAs(rounds[..k], all)
  }

  lemma AllEndAsAppend(rounds: seq<Round>, round: Round, all: seq<Connection>)
    requires AllEndAs(rounds, all) && EndsAs(rounds + [round], all)
    ensures AllEndAs(rounds + [round], all)
  {
    hide EndsAs;
    var more := rounds + [round];
    assert more[..|more|] == more;
    assert forall k :: 0 < k <= |rounds| ==> more[..k] == rounds[..k];
  }

  /** Whether a round's last CONNECT carried a token. */
  predicate CarriedToken(round: Round) {
    round.sends != [] && round.sends[|round.sends| - 1].Some?
  }

  function After(all: seq<Connection>, used: nat): seq<Connection> {
    all[Min(used, |all|)..]
  }

  lemma EndsAsAppend(rounds: seq<Round>, round: Round, all: seq<Connection>)
    requires round.sends != []
    requires round.end == EndOf(AttemptAt(After(all, Connects(rounds)), |round.sends| - 1), CarriedToken(round))
    ensures EndsAs(rounds + [round], all)
    ensures After(After(all, Connects(rounds)), |round.sends|) == After(all, Connects(rounds + [round]))
  {
    hide EndOf, AttemptAt, After, Connects;
    ConnectsAppend(rounds, round);
    AfterMore(all, Connects(rounds), |round.sends|);
  }

  lemma OnTimeAppend(rounds: seq<Round>, round: Round, start: nat)
    ensures OnTime(rounds, start) && round.at == start + |rounds| * RETRY ==> OnTime(rounds + [round], start)
  {
  }

  lemma AllLeft(all: seq<Connection>)
    ensures After(all, 0) == all
  {
  }

  lemma AfterMore(all: seq<Connection>, used: nat, more: nat)
    ensures After(After(all, used), more) == After(all, used + more)
    ensures more > 0 ==> AttemptAt(After(all, used), more - 1) == AttemptAt(all, used + more - 1)
  {
    hide Attempted;
    if used + more <= |all| {
      assert all[used..][more..] == all[used + more..];
    }
  }

  lemma DirectAfter(all: seq<Connection>, used: nat, refusal: Refusal, gated: bool)
    ensures DirectEnd(After(all, used), 0, refusal, gated) == DirectEnd(all, used, refusal, gated)
  {
  }

  /** What a call of the protocol comes to on the answers of connections. */
  lemma RoundFacts(cfg: Config, s: Shared, env: Env, all: seq<Connection>)
    requires env.answers == AnswersOf(all)
    ensures Whole(cfg, s, env) == Called(cfg, s, env)
    ensures var (s1, call, _) := Called(cfg, s, env);
      var first := AttemptAt(all, 0);
      && 1 <= |call.sends| <= 2
      && (|call.sends| == 2 <==>
            && first.Refused? && first.refusal.Denial? && first.refusal.status == 401 && cfg.pinned.None?
            && DenialOf(AnswerAt(env.answers, 0)).Some? && Second(cfg, s, env).Some?)
      && (cfg.pinned.Some? ==> call.sends == [Some(Credential(cfg.pinned.value, Pinned))] && s1.store == s.store)
  {
    DenialsAreDenials(all, 0);
    WholeIsComplete(cfg, s, env);
    CallFacts(cfg, s, env);
    if cfg.pinned.Some? {
      StartIsSafe(cfg);
      PinnedCall(cfg, s, START, env);
    }
    hide Whole, Complete, Safe, Current, Second, AttemptAt, AnswersOf, DenialOf;
  }

  class Client {
    const auth: GatewayAuth
    const world: World
    var connections: seq<Connection>
    /** The clock, and how far it moves at each look or pause. */
    var now: nat
    var delays: seq<nat>

    constructor (auth: GatewayAuth, connections: seq<Connection>, now: nat, delays: seq<nat>)
      ensures this.auth == auth && this.world == auth.world
      ensures this.connections == connections && this.now == now && this.delays == delays
    {
      this.auth, this.world, this.connections := auth, auth.world, connections;
      this.now, this.delays := now, delays;
    }

    predicate Valid()
      reads this
    {
      world == auth.world
    }

    /** The clock never goes back; a pause lasts at least what was asked. */
    method Pass(pause: nat) returns (t: nat)
      modifies this`now, this`delays
      ensures t == now && old(now) + pause <= now
      ensures old(delays) == [] ==> delays == [] && now == old(now) + pause
    {
      now := now + pause;
      if delays != [] {
        now, delays := now + delays[0], delays[1..];
      }
      return now;
    }

    /** One CONNECT on a connection of its own. */
    method TunnelOnce() returns (r: Attempt)
      modifies this`connections
      ensures r == AttemptAt(old(connections), 0)
      ensures connections == After(old(connections), 1)
    {
      if connections == [] {
        return NoAnswer;
      }
      var c := connections[0];
      connections := connections[1..];
      if c.Unreachable? {
        return NoAnswer;
      }
      var socket := new Socket(c.incoming);
      r := Handshake(socket, c.cut);
    }

    /** What the protocol's calls will be supplied with: the world's clock and
    auth servers, and the connections for a gateway. */
    ghost function Scripts(): Env
      reads this`connections, world`clock, world`refreshes, world`answers
    {
      world.Scripts().(answers := AnswersOf(connections))
    }

    /** One round: a CONNECT, and after a 401 one more with another credential.
    It is the protocol's call on the answers that the connections give. */
    method Authorized() returns (end: RoundEnd, sends: seq<Option<Credential>>)
      requires Valid()
      modifies this`connections, auth`token, auth`authUrl
      modifies world`clock, world`refreshes, world`store
      ensures var (s1, call, env1) := Called(auth.Cfg(), old(auth.State()), old(Scripts()));
        sends == call.sends && auth.State() == s1 && Scripts() == env1
      ensures 1 <= |sends| <= 2
      ensures |sends| == 2 <==>
        var first := AttemptAt(old(connections), 0);
        && first.Refused? && first.refusal.Denial? && first.refusal.status == 401 && auth.staticToken.None?
        && DenialOf(AnswerAt(old(Scripts()).answers, 0)).Some?
        && Second(auth.Cfg(), old(auth.State()), old(Scripts())).Some?
      ensures connections == After(old(connections), |sends|)
      ensures end == EndOf(AttemptAt(old(connections), |sends| - 1), sends[|sends| - 1].Some?)
      ensures auth.staticToken.Some? ==>
        sends == [Some(Credential(auth.staticToken.value, Pinned))] && world.store == old(world.store)
    {
      hide Attempted, After, Called, Current, Resolved, Learned, DenialOf, AnswersOf, AnswerAt, Second, AttemptAt;
      RoundFacts(auth.Cfg(), auth.State(), Scripts(), connections);
      DenialsAreDenials(connections, 0);
      AfterMore(connections, 1, 1);
      ChoosingIgnoresAnswers(auth.Cfg(), auth.State(), world.Scripts(), AnswersOf(connections));
      var first := auth.CurrentToken();
      var attempt := TunnelOnce();
      sends := [first];
      if !(attempt.Refused? && attempt.refusal.Denial?) {
        return EndOf(attempt, first.Some?), sends;
      }
      var Denial(status, url) := attempt.refusal;
      auth.LearnAuthServer(url);
      var retry := None;
      if status == 401 && auth.staticToken.None? {
        ResolvingIgnoresAnswers(auth.Cfg(), auth.State(), world.Scripts(), url, TokenOf(first), AnswersOf(connections));
        retry := auth.ResolveToken(url, TokenOf(first));
      }
      if retry.None? {
        return Rejected(Denied(status, url, first.Some?)), sends;
      }
      DenialsAreDenials(connections, 0);
      attempt := TunnelOnce();
      sends := [first, retry];
      return EndOf(attempt, true), sends;
    }

    /** The published port itself, when the gateway does not do tunnels. */
    method DirectPort(refusal: Refusal) returns (r: Result)
      modifies this`connections
      ensures r == DirectEnd(old(connections), 0, refusal, auth.staticToken.Some? || auth.authUrl.Some?)
      ensures connections == After(old(connections), 1)
    {
      if connections != [] {
        var c := connections[0];
        connections := connections[1..];
        if c.Connected? {
          return Direct(c.incoming);
        }
      }
      if auth.staticToken.Some? || auth.authUrl.Some? {
        return NoTunnel(refusal);
      }
      return Error(Failed);
    }

    /** One more round, added to those before it. */
    method NextRound(rounds: seq<Round>, ghost start: nat, ghost all: seq<Connection>, ghost s: Shared, ghost env: Env)
      returns (more: seq<Round>)
      requires Valid() && start <= now
      requires Paced(rounds, start) && Played(rounds, auth.Cfg(), s, env, auth.State())
      requires Scripts() == Repeated(auth.Cfg(), s, env, |rounds|).1
      requires rounds != [] ==>
        Waited(rounds[|rounds| - 1], start + WAIT) && rounds[|rounds| - 1].at + RETRY <= now
      requires connections == After(all, Connects(rounds)) && AllEndAs(rounds, all)
      modifies this, auth`token, auth`authUrl
      modifies world`clock, world`refreshes, world`store
      ensures |more| == |rounds| + 1 && more[|rounds|].at == now
      ensures Paced(more, start) && Played(more, auth.Cfg(), s, env, auth.State())
      ensures Scripts() == Repeated(auth.Cfg(), s, env, |more|).1
      ensures connections == After(all, Connects(more))
      ensures auth.staticToken.Some? ==> world.store == old(world.store)
      ensures start <= now && old(now) <= now
      ensures old(delays) == [] ==> delays == [] && now == old(now)
      ensures old(delays) == [] && OnTime(rounds, start) && now == start + |rounds| * RETRY ==> OnTime(more, start)
      ensures EndsAs(more, all) && AllEndAs(more, all)
    {
      hide Attempted, EndOf, Paced, Connects, AttemptAt, After, Called, AnswersOf, Played, Repeated, OnTime, EndsAs,
        AllEndAs;
      ghost var s1, env1 := auth.State(), Scripts();
      var end, sends := Authorized();
      var t := Pass(0);
      var round := Round(sends, end, t);
      more := rounds + [round];
      PacedAppend(rounds, round, start);
      EndsAsAppend(rounds, round, all);
      AllEndAsAppend(rounds, round, all);
      OnTimeAppend(rounds, round, start);
      PlayedAppend(rounds, round, auth.Cfg(), s, env, s1, env1);
    }

    /** Open a tunnel, waiting out a server that is still opening its port. */
    method DebugTunnel() returns (r: Result, rounds: seq<Round>)
      requires Valid()
      modifies this, auth`token, auth`authUrl
      modifies world`clock, world`refreshes, world`store
      ensures 1 <= |rounds| <= 21 && Paced(rounds, old(now)) && Connects(rounds) <= 42
      ensures Played(rounds, auth.Cfg(), old(auth.State()), old(Scripts()), auth.State())
      ensures auth.staticToken.Some? ==> world.store == old(world.store)
      ensures EndsAs(rounds, old(connections)) && AllEndAs(rounds, old(connections))
      ensures old(delays) == [] ==> OnTime(rounds, old(now))
      ensures var last := rounds[|rounds| - 1];
        match last.end
        case Opened(rest) => r == Tunnelled(rest)
        case Stands(NothingListening(_)) =>
          r == NoTunnel(last.end.refusal) && old(now) + 5_000_000_000 < last.at + 250_000_000
        case Stands(Unsupported(_)) =>
          r == DirectEnd(old(connections), Connects(rounds), last.end.refusal,
                         auth.staticToken.Some? || auth.authUrl.Some?)
        case Stands(refusal) => r == NoTunnel(refusal)
        case _ => r == Error(last.end)
    {
      hide Attempted, EndOf, Paced, Connects, AttemptAt, EndsAs, AllEndAs, After, DirectEnd, AnswersOf, Repeated,
        Played;
      ghost var start, all, cfg, s, env := now, connections, auth.Cfg(), auth.State(), Scripts();
      EmptyRounds(now, all, cfg, s, env);
      AllLeft(connections);
      var deadline := now + WAIT;
      rounds := [];
      while true
        invariant Paced(rounds, start) && Played(rounds, cfg, s, env, auth.State()) && start <= now
        invariant Scripts() == Repeated(cfg, s, env, |rounds|).1
        invariant rounds != [] ==>
          Waited(rounds[|rounds| - 1], deadline) && rounds[|rounds| - 1].at + RETRY <= now
        invariant auth.staticToken.Some? ==> world.store == old(world.store)
        invariant connections == After(all, Connects(rounds)) && AllEndAs(rounds, all)
        invariant old(delays) == [] ==>
          delays == [] && OnTime(rounds, start) && now == start + |rounds| * RETRY
        decreases deadline - now
      {
        rounds := NextRound(rounds, start, all, s, env);
        AtMost21Rounds(rounds, start);
        TwoEach(rounds, cfg, s, env, auth.State());
        var end := rounds[|rounds| - 1].end;
        match end
        case Opened(rest) => return Tunnelled(rest), rounds;
        case Stands(NothingListening(_)) =>
          if now + RETRY > deadline {
            return NoTunnel(end.refusal), rounds;
          }
          var _ := Pass(RETRY);
        case Stands(Unsupported(_)) =>
          DirectAfter(all, Connects(rounds), end.refusal, auth.staticToken.Some? || auth.authUrl.Some?);
          r := DirectPort(end.refusal);
          return;
        case Stands(_) => return NoTunnel(end.refusal), rounds;
        case _ => return Error(end), rounds;
      }
    }
  }

  // ----- the bound is met

  const BAD_GATEWAY := Printed(Ascii("1.1"), 502, Ascii("Bad Gateway"), [])

  lemma {:induction false} AsciiIsUtf8(s: bytes)
    requires forall i :: 0 <= i < |s| ==> s[i] < 128
    ensures Utf8(s)
  {
    if s != [] {
      assert CharLength(s) == 1;
      AsciiIsUtf8(s[1..]);
    }
  }

  lemma OneLine(line: bytes)
    ensures JoinLines([line]) == line + CRLF
  {
    assert [line][1..] == [] && JoinLines([]) == [];
    assert CRLF + JoinLines([]) == CRLF;
  }

  lemma AsciiLine(line: bytes)
    requires forall i :: 0 <= i < |line| ==> line[i] < 128
    ensures Utf8(JoinLines([line]) + CRLF)
  {
    OneLine(line);
    AsciiIsUtf8(line + CRLF + CRLF);
  }

  lemma BadGatewayLine()
    ensures var line := BAD_GATEWAY.StatusLine(); |line| <= 100 && forall i :: 0 <= i < |line| ==> line[i] < 128
  {
    DecimalDigits(502, 3);
    assert Power10(3) == 1000;
    assert forall i :: 0 <= i < |Decimal(502)| ==> Decimal(502)[i] < 128;
    hide Decimal;
  }

  lemma BadGatewayReads()
    ensures BAD_GATEWAY.Valid() && Utf8(BAD_GATEWAY.Text()) && |BAD_GATEWAY.Text()| <= MAX_HEAD_BYTES
  {
    hide Utf8, JoinLines, Printed.StatusLine;
    BadGatewayLine();
    var line := BAD_GATEWAY.StatusLine();
    assert BAD_GATEWAY.HeaderLines() == [] && [line] + BAD_GATEWAY.HeaderLines() == [line];
    OneLine(line);
    AsciiLine(line);
  }

  /** Main result: 21 rounds are made when every CONNECT gets a 502 and nothing
  but the pauses takes any time. */
  method WaitOut(store: Json, boxHost: string, pinned: Option<string>, clock: seq<int>, frozen: int,
                 refreshes: seq<Option<Outcome>>, expires: string -> int, now: nat)
    returns (r: Result, rounds: seq<Round>)
    ensures |rounds| == 21 && r.NoTunnel?
  {
    var world := new World(store, clock, frozen, refreshes, [], expires);
    var auth := new GatewayAuth(world, boxHost, pinned);
    var text := BAD_GATEWAY.Text();
    var connections := seq(42, _ => Connected(text, 0));
    var client := new Client(auth, connections, now, []);
    r, rounds := client.DebugTunnel();
    hide Paced, Played, Connects, OnTime, Attempted;
    AlwaysRefused(connections, Connects(rounds) - 1);
    assert rounds[|rounds| - 1].end.Stands? && rounds[|rounds| - 1].end.refusal.NothingListening?;
    TimeOfLast(rounds, now);
  }

  lemma TimeOfLast(rounds: seq<Round>, start: nat)
    requires rounds != [] && OnTime(rounds, start)
    ensures rounds[|rounds| - 1].at == start + (|rounds| - 1) * RETRY
  {
  }

  lemma NoHeaders()
    ensures Declares(BAD_GATEWAY.Value(CONTENT_LENGTH, |BAD_GATEWAY.headers|), 0)
  {
  }

  lemma AlwaysRefused(connections: seq<Connection>, i: nat)
    requires i < |connections| && connections[i] == Connected(BAD_GATEWAY.Text(), 0)
    ensures AttemptAt(connections, i).Refused? && AttemptAt(connections, i).refusal.NothingListening?
  {
    hide Attempted, Printed.Text, Printed.Value;
    BadGatewayReads();
    NoHeaders();
    PrintedOutcome(BAD_GATEWAY, [], 0, 0);
    assert BAD_GATEWAY.Text() + [] == BAD_GATEWAY.Text();
  }

  // ----- a box without tunnels

  /** Main result: where the answer is that of a box that does no tunnels, such
  as a 501, the published port is connected to at once. */
  method PlainBox(p: Printed, rest: bytes, cut: nat, port: bytes, store: Json, boxHost: string, pinned: Option<string>,
                  clock: seq<int>, frozen: int, refreshes: seq<Option<Outcome>>, expires: string -> int, now: nat)
    returns (r: Result, rounds: seq<Round>)
    requires p.Valid() && Utf8(p.Text()) && |p.Text()| <= 65536
    requires p.status !in {200, 403, 502} && (p.status in {401, 503} ==> p.Value(DISCOVERY, |p.headers|).None?)
    ensures r == Direct(port) && |rounds| == 1
  {
    hide Attempted, Printed.Text, Printed.Value, Utf8, Repeated, Called, AnswersOf, Declares;
    var world := new World(store, clock, frozen, refreshes, [], expires);
    var auth := new GatewayAuth(world, boxHost, pinned);
    var text := p.Text();
    var connections := [Connected(text + rest, cut), Connected(port, 0)];
    var client := new Client(auth, connections, now, []);
    ghost var n := SomeLength(p.Value(CONTENT_LENGTH, |p.headers|));
    PrintedOutcome(p, rest, cut, n);
    RoundFacts(auth.Cfg(), auth.State(), client.Scripts(), connections);
    FirstSends(auth.Cfg(), auth.State(), client.Scripts());
    r, rounds := client.DebugTunnel();
    OneRound(rounds, connections, now, p.status);
  }

  lemma SomeLength(field: Option<bytes>) returns (n: nat)
    ensures Declares(field, n)
  {
    n := 0;
    if field.Some? {
      n := LengthOf(field.value);
      LengthExactly(field.value, n);
    }
  }

  lemma FirstSends(cfg: Config, s: Shared, env: Env)
    ensures SendsOf(cfg, s, env, 0) == Called(cfg, s, env).1.sends
  {
    hide Called;
  }

  /** A first round of one CONNECT that finds no tunnels is the last one. */
  lemma OneRound(rounds: seq<Round>, all: seq<Connection>, start: nat, status: nat)
    requires rounds != [] && Paced(rounds, start) && AllEndAs(rounds, all) && |rounds[0].sends| == 1
    requires AttemptAt(all, 0) == Refused(Unsupported(Some(status)))
    ensures |rounds| == 1 && Connects(rounds) == 1 && rounds[0].end == Stands(Unsupported(Some(status)))
  {
    hide AttemptAt;
    var first := rounds[..1];
    assert EndsAs(first, all) && first == [rounds[0]];
    assert first[..0] == [] && Connects(first) == 1;
    assert rounds[0].end == Stands(Unsupported(Some(status)));
    assert |rounds| == 1 ==> rounds == first;
  }
}
