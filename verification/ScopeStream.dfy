/** The credit-paced scope stream and the one-shot capture (src/nets/scope_trace.rs). */
module ScopeStream {
  import opened Bytes
  import opened Lscp

  const STREAM_CREDITS := 4

  /** A daemon reply, as `daemon_reply` sorts it. */
  datatype Reply = Malformed | ErrorReply | State | Answer(seqNo: Option<nat>)

  datatype Message = Binary(frame: bytes) | Text(reply: Reply) | Control | Close

  datatype Slot = Arrived(message: Message) | TimeUp

  datatype Command = Subscribe(credits: nat) | Credit(count: nat) | GetTriggeredData

  function CreditsOf(c: Command): nat {
    match c
    case Subscribe(n) => n
    case Credit(n) => n
    case GetTriggeredData => 0
  }

  /** Credits granted by what was sent. */
  function Granted(sent: seq<Command>): nat {
    if sent == [] then 0
    else Granted(sent[..|sent| - 1]) + CreditsOf(sent[|sent| - 1])
  }

  lemma GrantedAppend(sent: seq<Command>, c: Command)
    ensures Granted(sent + [c]) == Granted(sent) + CreditsOf(c)
  {
    assert (sent + [c])[..|sent|] == sent;
  }

  // ----- what a reader finds in its inbox

  /** The next data message, if the wait does not run out and the box does not
  close first, and what follows in the inbox. */
  function Next(inbox: seq<Slot>): (r: (Option<Message>, seq<Slot>))
    ensures |r.1| <= |inbox| && (inbox != [] ==> |r.1| < |inbox|)
    ensures r.0.Some? ==> inbox != [] && (r.0.value.Binary? || r.0.value.Text?)
    decreases |inbox|
  {
    if inbox == [] then (None, [])
    else if inbox[0].TimeUp? || inbox[0].message.Close? then (None, inbox[1..])
    else if inbox[0].message.Control? then Next(inbox[1..])
    else (Some(inbox[0].message), inbox[1..])
  }

  predicate IsBad(reply: Reply) {
    reply.Malformed? || reply.ErrorReply?
  }

  /** The reply to a command: the first text that is not a state notice.
  Captures ahead of it are passed over. */
  function ReplyIn(inbox: seq<Slot>): (r: (Option<Option<nat>>, seq<Slot>))
    ensures |r.1| <= |inbox|
    decreases |inbox|
  {
    var (m, rest) := Next(inbox);
    match m
    case Some(Binary(_)) => ReplyIn(rest)
    case Some(Text(State)) => ReplyIn(rest)
    case Some(Text(Answer(n))) => (Some(n), rest)
    case _ => (None, rest)
  }

  /** The first frame numbered `want`, or the first of any number. */
  function FrameIn(inbox: seq<Slot>, want: Option<nat>): (r: (Option<bytes>, seq<Slot>))
    ensures |r.1| <= |inbox|
    decreases |inbox|
  {
    var (m, rest) := Next(inbox);
    match m
    case Some(Binary(f)) => if want.None? || PeekSeq(f) == want then (Some(f), rest) else FrameIn(rest, want)
    case Some(Text(reply)) => if IsBad(reply) then (None, rest) else FrameIn(rest, want)
    case _ => (None, rest)
  }

  /** Some message of the inbox is this frame. */
  ghost predicate Received(inbox: seq<Slot>, f: bytes) {
    Arrived(Binary(f)) in inbox
  }

  lemma {:induction false} NextIsReceived(inbox: seq<Slot>)
    ensures Next(inbox).0.Some? ==> Arrived(Next(inbox).0.value) in inbox
    ensures forall s :: s in Next(inbox).1 ==> s in inbox
    decreases |inbox|
  {
    if inbox != [] && inbox[0] == Arrived(Control) {
      NextIsReceived(inbox[1..]);
    }
  }

  /** A frame found for a number was received and bears that number, and so
  does any capture it says. */
  lemma {:induction false} FrameInMatches(inbox: seq<Slot>, want: Option<nat>)
    requires FrameIn(inbox, want).0.Some?
    ensures var f := FrameIn(inbox, want).0.value;
      Received(inbox, f) && (want.Some? ==> PeekSeq(f) == want && forall c :: Says(f, c) ==> c.seqNo == want.value)
    decreases |inbox|
  {
    hide Says, WellFormed;
    NextIsReceived(inbox);
    var f := FrameIn(inbox, want).0.value;
    if Next(inbox).0.value != Binary(f) || (want.Some? && PeekSeq(f) != want) {
      FrameInMatches(Next(inbox).1, want);
    } else {
      forall c | Says(f, c)
        ensures PeekSeq(f) == Some(c.seqNo)
      {
        SaysSeq(f, c);
      }
    }
  }

  lemma SaysSeq(f: bytes, c: Capture)
    requires Says(f, c)
    ensures PeekSeq(f) == Some(c.seqNo)
  {
  }

  // ----- what was taken from an inbox

  /** What a reader took that left `rest`. */
  function Taken(inbox: seq<Slot>, rest: seq<Slot>): seq<Slot>
    requires |rest| <= |inbox|
  {
    inbox[..|inbox| - |rest|]
  }

  predicate IsFrame(slot: Slot) {
    slot.Arrived? && slot.message.Binary?
  }

  /** A capture that does not decode. */
  predicate IsBroken(slot: Slot) {
    IsFrame(slot) && !WellFormed(slot.message.frame)
  }

  function FramesIn(slots: seq<Slot>): nat {
    if slots == [] then 0 else FramesIn(slots[..|slots| - 1]) + if IsFrame(slots[|slots| - 1]) then 1 else 0
  }

  function BrokenIn(slots: seq<Slot>): nat {
    if slots == [] then 0 else BrokenIn(slots[..|slots| - 1]) + if IsBroken(slots[|slots| - 1]) then 1 else 0
  }

  lemma {:induction false} CountsAdd(a: seq<Slot>, b: seq<Slot>)
    ensures FramesIn(a + b) == FramesIn(a) + FramesIn(b)
    ensures BrokenIn(a + b) == BrokenIn(a) + BrokenIn(b)
  {
    hide IsFrame, IsBroken;
    if b == [] {
      assert a + b == a;
    } else {
      CountsAdd(a, b[..|b| - 1]);
      assert (a + b)[..|a + b| - 1] == a + b[..|b| - 1];
    }
  }

  /** A frame with the number wanted, if one is. */
  predicate IsWanted(slot: Slot, want: Option<nat>) {
    IsFrame(slot) && (want.None? || PeekSeq(slot.message.frame) == want)
  }

  /** The first slot of an inbox decides, or is passed over. */
  lemma FrameStep(inbox: seq<Slot>, want: Option<nat>)
    requires inbox != []
    ensures var (first, tail) := (inbox[0], inbox[1..]);
      FrameIn(inbox, want) ==
        if IsWanted(first, want) then (Some(first.message.frame), tail)
        else if EndsCall(first) then (None, tail)
        else FrameIn(tail, want)
  {
    hide PeekSeq;
  }

  /** Main result: frames of other numbers, state notices and control frames
  are passed over, up to the first frame wanted or the end of the call. */
  lemma {:induction false} FrameInExactly(inbox: seq<Slot>, want: Option<nat>, k: nat)
    requires k <= |inbox| && forall j :: 0 <= j < k ==> !IsWanted(inbox[j], want) && !EndsCall(inbox[j])
    requires k < |inbox| ==> IsWanted(inbox[k], want) || EndsCall(inbox[k])
    ensures FrameIn(inbox, want) ==
      if k == |inbox| then (None, [])
      else if IsWanted(inbox[k], want) then (Some(inbox[k].message.frame), inbox[k + 1..])
      else (None, inbox[k + 1..])
  {
    if inbox != [] {
      FrameStep(inbox, want);
      hide FrameIn, IsWanted, EndsCall;
      if k > 0 {
        FrameInExactly(inbox[1..], want, k - 1);
        assert k < |inbox| ==> inbox[1..][k..] == inbox[k + 1..];
      }
    }
  }

  /** The number of a frame is in its bytes 8 to 15, after "LSCP". */
  lemma PeekExactly(b: bytes, n: nat)
    ensures PeekSeq(b) == Some(n) <==> 64 <= |b| && b[..4] == Ascii("LSCP") && Le(b, 8, 8) == n
  {
    if 64 <= |b| {
      FourBytes(b, 0);
      hide Le;
      assert b[0..4] == b[..4];
      MagicExactly(b[0..4]);
    }
  }

  /** A slot that ends a read of a subscription without a capture. */
  predicate EndsCall(slot: Slot) {
    || slot.TimeUp? || slot.message.Close?
    || (slot.message.Text? && IsBad(slot.message.reply))
  }

  lemma ReplyStep(inbox: seq<Slot>)
    requires inbox != []
    ensures var (first, tail) := (inbox[0], inbox[1..]);
      ReplyIn(inbox) ==
        if EndsCall(first) then (None, tail)
        else if first.message.Text? && first.message.reply.Answer? then (Some(first.message.reply.seqNo), tail)
        else ReplyIn(tail)
  {
  }

  lemma {:induction false} FrameTakes(inbox: seq<Slot>)
    ensures var (f, rest) := FrameIn(inbox, None);
      && inbox == Taken(inbox, rest) + rest
      && FramesIn(Taken(inbox, rest)) == (if f.Some? then 1 else 0)
      && BrokenIn(Taken(inbox, rest)) == (if f.Some? && !WellFormed(f.value) then 1 else 0)
    decreases |inbox|
  {
    hide WellFormed;
    if inbox != [] {
      FrameStep(inbox, None);
      var first, tail, rest := inbox[0], inbox[1..], FrameIn(inbox, None).1;
      if !IsFrame(first) && !EndsCall(first) {
        FrameTakes(tail);
        assert Taken(inbox, rest) == [first] + Taken(tail, rest);
        CountsAdd([first], Taken(tail, rest));
        OneSlot(first);
      } else {
        assert Taken(inbox, rest) == [first];
        OneSlot(first);
      }
      hide FrameIn, FramesIn, BrokenIn;
    }
  }

  lemma OneSlot(slot: Slot)
    ensures FramesIn([slot]) == (if IsFrame(slot) then 1 else 0)
    ensures BrokenIn([slot]) == (if IsBroken(slot) then 1 else 0)
  {
    assert [slot][..0] == [];
  }

  lemma {:induction false} ReplyTakes(inbox: seq<Slot>)
    ensures inbox == Taken(inbox, ReplyIn(inbox).1) + ReplyIn(inbox).1
    decreases |inbox|
  {
    if inbox != [] {
      ReplyStep(inbox);
      var rest := ReplyIn(inbox).1;
      hide ReplyIn;
      if rest != inbox[1..] {
        ReplyTakes(inbox[1..]);
        assert Taken(inbox, rest) == [inbox[0]] + Taken(inbox[1..], rest);
      }
    }
  }

  // ----- the client

  /** Whether the next send fails. */
  predicate Fails(failures: seq<bool>) {
    failures != [] && failures[0]
  }

  function Later(failures: seq<bool>): seq<bool> {
    if failures == [] then [] else failures[1..]
  }

  class Socket {
    /** What will be read, in order. */
    var inbox: seq<Slot>
    /** Whether the coming sends fail; past the end they do not. */
    var failures: seq<bool>
    /** What was sent. */
    var sent: seq<Command>

    constructor (inbox: seq<Slot>, failures: seq<bool>)
      ensures this.inbox == inbox && this.failures == failures && sent == []
    {
      this.inbox, this.failures, sent := inbox, failures, [];
    }

    method Send(c: Command) returns (ok: bool)
      modifies this`sent, this`failures
      ensures ok == !Fails(old(failures)) && failures == Later(old(failures))
      ensures sent == if ok then old(sent) + [c] else old(sent)
    {
      ok := failures == [] || !failures[0];
      if failures != [] {
        failures := failures[1..];
      }
      if ok {
        sent := sent + [c];
      }
    }

    /** Read the next data message, skipping control frames. */
    method Read() returns (r: Option<Message>)
      modifies this`inbox
      ensures (r, inbox) == Next(old(inbox))
    {
      while true
        invariant Next(inbox) == Next(old(inbox))
        decreases |inbox|
      {
        if inbox == [] {
          return None;
        }
        var slot := inbox[0];
        inbox := inbox[1..];
        if slot.TimeUp? || slot.message.Close? {
          return None;
        }
        if !slot.message.Control? {
          return Some(slot.message);
        }
      }
    }

    /** The reply to a command, skipping captures pushed ahead of it. */
    method AwaitReply() returns (r: Option<Option<nat>>)
      modifies this`inbox
      ensures (r, inbox) == ReplyIn(old(inbox))
    {
      while true
        invariant ReplyIn(inbox) == ReplyIn(old(inbox))
        decreases |inbox|
      {
        var m := Read();
        match m
        case None => return None;
        case Some(Binary(_)) =>
        case Some(Text(State)) =>
        case Some(Text(Answer(n))) => return Some(n);
        case Some(_) => return None;
      }
    }

    /** One capture on demand. When the acknowledgement names a sequence
    number, only a frame with that number can be returned. */
    method Capture() returns (r: Option<Capture>)
      modifies this
      ensures sent == if Fails(old(failures)) then old(sent) else old(sent) + [GetTriggeredData]
      ensures failures == Later(old(failures))
      ensures var (ack, rest) := ReplyIn(old(inbox));
        inbox == if Fails(old(failures)) then old(inbox)
                 else if ack.None? then rest
                 else FrameIn(rest, ack.value).1
      ensures var (ack, rest) := ReplyIn(old(inbox));
        if Fails(old(failures)) || ack.None? then r == None
        else
          var f := FrameIn(rest, ack.value).0;
          && (r.Some? <==> f.Some? && WellFormed(f.value))
          && (r.Some? ==> Says(f.value, r.value) && (ack.value.Some? ==> r.value.seqNo == ack.value.value))
    {
      hide Says, WellFormed, PeekSeq;
      var ok := Send(GetTriggeredData);
      if !ok {
        return None;
      }
      var ack := AwaitReply();
      if ack.None? {
        return None;
      }
      var want := ack.value;
      ghost var start := inbox;
      while true
        invariant FrameIn(inbox, want) == FrameIn(start, want)
        invariant sent == old(sent) + [GetTriggeredData] && failures == Later(old(failures))
        decreases |inbox|
      {
        var m := Read();
        match m
        case None => return None;
        case Some(Binary(frame)) =>
          if want.None? || PeekSeq(frame) == want {
            FrameInMatches(start, want);
            r := Decode(frame);
            return;
          }
        case Some(Text(reply)) =>
          if reply.Malformed? || reply.ErrorReply? {
            return None;
          }
        case Some(_) => return None;
      }
    }

    /** Start a subscription: four credits are granted once the command is
    sent, whatever comes of its reply. */
    method Open() returns (ok: bool)
      modifies this
      ensures ok <==> !Fails(old(failures)) && ReplyIn(old(inbox)).0.Some?
      ensures failures == Later(old(failures))
      ensures sent == if Fails(old(failures)) then old(sent) else old(sent) + [Subscribe(STREAM_CREDITS)]
      ensures inbox == if Fails(old(failures)) then old(inbox) else ReplyIn(old(inbox)).1
    {
      ok := Send(Subscribe(STREAM_CREDITS));
      if !ok {
        return;
      }
      var r := AwaitReply();
      return r.Some?;
    }

    /** The next capture of a subscription: the first frame of the inbox, if it
    decodes and its credit can be sent. */
    method NextCapture() returns (r: Option<Capture>)
      modifies this
      ensures var (f, rest) := FrameIn(old(inbox), None);
        && inbox == rest
        && (r.Some? <==> f.Some? && WellFormed(f.value) && !Fails(old(failures)))
        && (r.Some? ==> Says(f.value, r.value))
        && sent == (if r.Some? then old(sent) + [Credit(1)] else old(sent))
        && failures == (if f.Some? && WellFormed(f.value) then Later(old(failures)) else old(failures))
    {
      hide Says, WellFormed, PeekSeq;
      while true
        invariant FrameIn(inbox, None) == FrameIn(old(inbox), None)
        invariant sent == old(sent) && failures == old(failures)
        decreases |inbox|
      {
        var m := Read();
        match m
        case None => return None;
        case Some(Binary(frame)) =>
          r := Decode(frame);
          if r.None? {
            return;
          }
          var ok := Send(Credit(1));
          if !ok {
            r := None;
          }
          return;
        case Some(Text(reply)) =>
          if reply.Malformed? || reply.ErrorReply? {
            return None;
          }
        case Some(_) => return None;
      }
    }
  }

  // ----- a subscription, from the client's side

  /** Credits granted, captures received, those of them that earned no credit,
  and what is still to be read and to fail. */
  datatype Tally = Tally(granted: nat, received: nat, lost: nat, inbox: seq<Slot>, failures: seq<bool>)

  /** After subscribing: captures ahead of the reply earn nothing. */
  function Opened(inbox: seq<Slot>, failures: seq<bool>): Tally {
    if Fails(failures) then Tally(0, 0, 0, inbox, Later(failures))
    else
      var rest := ReplyIn(inbox).1;
      var ahead := FramesIn(Taken(inbox, rest));
      Tally(STREAM_CREDITS, ahead, ahead, rest, Later(failures))
  }

  /** Subscribing grants four credits, or none if it could not be sent, and what
  arrives ahead of the reply is received and lost. */
  lemma OpenedExactly(inbox: seq<Slot>, failures: seq<bool>) returns (taken: seq<Slot>)
    ensures var t := Opened(inbox, failures);
      && inbox == taken + t.inbox && (Fails(failures) ==> taken == [])
      && t.granted == (if Fails(failures) then 0 else 4)
      && t.received == t.lost == FramesIn(taken)
  {
    ReplyTakes(inbox);
    taken := if Fails(failures) then [] else Taken(inbox, ReplyIn(inbox).1);
    assert [] + inbox == inbox;
  }

  /** After one read of the subscription. */
  function Called(t: Tally): Tally {
    var (f, rest) := FrameIn(t.inbox, None);
    if f.None? then t.(inbox := rest)
    else if !WellFormed(f.value) then t.(received := t.received + 1, lost := t.lost + 1, inbox := rest)
    else
      var after := t.(received := t.received + 1, inbox := rest, failures := Later(t.failures));
      if Fails(t.failures) then after.(lost := t.lost + 1) else after.(granted := t.granted + 1)
  }

  function CalledTimes(t: Tally, n: nat): Tally {
    if n == 0 then t else Called(CalledTimes(t, n - 1))
  }

  /** A subscription and any number of reads of it, against any messages. */
  method Run(inbox: seq<Slot>, failures: seq<bool>, calls: nat) returns (ok: bool, granted: nat, rest: seq<Slot>)
    ensures ok <==> !Fails(failures) && ReplyIn(inbox).0.Some?
    ensures var t := CalledTimes(Opened(inbox, failures), if ok then calls else 0);
      granted == t.granted && rest == t.inbox
  {
    hide FrameIn, ReplyIn, WellFormed, Taken, FramesIn, Granted, CalledTimes;
    var socket := new Socket(inbox, failures);
    ok := socket.Open();
    ghost var start := Opened(inbox, failures);
    SubscribeGrants();
    NoCall(start);
    if ok {
      ghost var t := start;
      hide Opened;
      for i := 0 to calls
        invariant fresh(socket) && t == CalledTimes(start, i)
        invariant socket.inbox == t.inbox && socket.failures == t.failures && Granted(socket.sent) == t.granted
      {
        ghost var sent := socket.sent;
        var _ := socket.NextCapture();
        GrantedAppend(sent, Credit(1));
        OneCallMore(start, i);
        t := Called(t);
      }
    }
    granted, rest := Granted(socket.sent), socket.inbox;
  }

  lemma SubscribeGrants()
    ensures Granted([]) == 0 && Granted([] + [Subscribe(STREAM_CREDITS)]) == STREAM_CREDITS
  {
    GrantedAppend([], Subscribe(STREAM_CREDITS));
  }

  lemma NoCall(t: Tally)
    ensures CalledTimes(t, 0) == t
  {
  }

  lemma OneCallMore(t: Tally, n: nat)
    ensures CalledTimes(t, n + 1) == Called(CalledTimes(t, n))
  {
  }

  // ----- which captures earn no credit

  function FailuresIn(sends: seq<bool>): nat {
    if sends == [] then 0 else FailuresIn(sends[..|sends| - 1]) + if sends[|sends| - 1] then 1 else 0
  }

  lemma {:induction false} FailuresAdd(a: seq<bool>, b: seq<bool>)
    ensures FailuresIn(a + b) == FailuresIn(a) + FailuresIn(b)
  {
    if b == [] {
      assert a + b == a;
    } else {
      FailuresAdd(a, b[..|b| - 1]);
      assert (a + b)[..|a + b| - 1] == a + b[..|b| - 1];
    }
  }

  /** `before` has come to `after` by reading `taken`, with `sends` the credits
  tried: they account for what was received and lost. */
  ghost predicate Spent(before: Tally, after: Tally, taken: seq<Slot>, sends: seq<bool>) {
    && before.inbox == taken + after.inbox && before.failures == sends + after.failures
    && after.received == before.received + FramesIn(taken)
    && after.lost == before.lost + BrokenIn(taken) + FailuresIn(sends)
    && after.granted + after.lost + before.received == before.granted + before.lost + after.received
  }

  lemma CallSpends(t: Tally) returns (taken: seq<Slot>, sends: seq<bool>)
    ensures Spent(t, Called(t), taken, sends)
  {
    FrameTakes(t.inbox);
    var (f, rest) := FrameIn(t.inbox, None);
    taken, sends := Taken(t.inbox, rest), [];
    if f.Some? && WellFormed(f.value) && t.failures != [] {
      sends := [t.failures[0]];
      assert sends[..0] == [];
    }
    assert t.failures == sends + Called(t).failures;
    hide FrameIn, WellFormed, FramesIn, BrokenIn, Taken;
  }

  /** Main result: over any number of reads, the captures that earned no credit
  are exactly those that did not decode and those whose credit failed to be
  sent. */
  lemma {:induction false} LostExactly(t: Tally, n: nat) returns (taken: seq<Slot>, sends: seq<bool>)
    ensures Spent(t, CalledTimes(t, n), taken, sends)
  {
    if n == 0 {
      taken, sends := [], [];
    } else {
      var more, moreSends;
      taken, sends := LostExactly(t, n - 1);
      more, moreSends := CallSpends(CalledTimes(t, n - 1));
      CountsAdd(taken, more);
      FailuresAdd(sends, moreSends);
      var after := CalledTimes(t, n);
      hide CalledTimes, FramesIn, BrokenIn, FailuresIn, Called;
      Regroup(taken, more, after.inbox);
      Regroup(sends, moreSends, after.failures);
      taken, sends := taken + more, sends + moreSends;
    }
  }

  // ----- client and daemon together

  datatype Phase = Opening | Reading | Over

  /** Credits granted, messages on their way, captures the daemon has sent,
  captures the client has read, and those of them that earned no credit. */
  datatype Link = Link(phase: Phase, granted: nat, flight: seq<Message>, sent: nat, received: nat, lost: nat)

  const SUBSCRIBED := Link(Opening, STREAM_CREDITS, [], 0, 0, 0)

  /** The daemon sends any message, but a capture only against a credit. */
  function Sends(a: Link, m: Message): Link {
    a.(flight := a.flight + [m], sent := a.sent + if m.Binary? then 1 else 0)
  }

  /** The client takes the next message: what its code does with each. */
  function Takes(a: Link, fails: bool): Link
    requires a.flight != []
  {
    var b := a.(flight := a.flight[1..]);
    match a.flight[0]
    case Binary(f) =>
      if a.phase.Reading? && WellFormed(f) && !fails
      then b.(received := a.received + 1, granted := a.granted + 1)
      else b.(received := a.received + 1, lost := a.lost + 1)
    case Text(reply) =>
      if !a.phase.Opening? || reply.State? then b
      else b.(phase := if reply.Answer? then Reading else Over)
    case Control => b
    case Close => if a.phase.Opening? then b.(phase := Over) else b
  }

  /** The daemon sends, the client takes, or the wait for the reply to the
  subscription runs out. */
  ghost predicate Step(a: Link, b: Link) {
    || (exists m: Message :: (m.Binary? ==> a.sent < a.granted) && b == Sends(a, m))
    || (!a.phase.Over? && a.flight != [] && (b == Takes(a, false) || b == Takes(a, true)))
    || (a.phase.Opening? && b == a.(phase := Over))
  }

  ghost predicate Path(links: seq<Link>) {
    links != [] && forall i :: 0 <= i < |links| - 1 ==> Step(links[i], links[i + 1])
  }

  ghost predicate Reaches(a: Link, b: Link) {
    exists links :: Path(links) && links[0] == a && links[|links| - 1] == b
  }

  lemma ReachesSelf(a: Link)
    ensures Reaches(a, a)
  {
    assert Path([a]);
  }

  lemma ReachesStep(a: Link, b: Link, c: Link)
    requires Reaches(a, b) && Step(b, c)
    ensures Reaches(a, c)
  {
    var links :| Path(links) && links[0] == a && links[|links| - 1] == b;
    assert Path(links + [c]);
  }

  lemma {:induction false} ReachesAlong(a: Link, links: seq<Link>, i: nat)
    requires Path(links) && i < |links| && Reaches(a, links[0])
    ensures Reaches(a, links[i])
  {
    if i > 0 {
      ReachesAlong(a, links, i - 1);
      assert Step(links[i - 1], links[i - 1 + 1]);
      hide Reaches, Step;
      ReachesStep(a, links[i - 1], links[i]);
    }
  }

  lemma ReachesTrans(a: Link, b: Link, c: Link)
    requires Reaches(a, b) && Reaches(b, c)
    ensures Reaches(a, c)
  {
    var links :| Path(links) && links[0] == b && links[|links| - 1] == c;
    ReachesAlong(a, links, |links| - 1);
  }

  function CapturesIn(flight: seq<Message>): nat {
    if flight == [] then 0 else CapturesIn(flight[1..]) + if flight[0].Binary? then 1 else 0
  }

  lemma {:induction false} CapturesAppend(flight: seq<Message>, m: Message)
    ensures CapturesIn(flight + [m]) == CapturesIn(flight) + if m.Binary? then 1 else 0
  {
    if flight == [] {
      assert [m][1..] == [] && flight + [m] == [m];
    } else {
      assert (flight + [m])[1..] == flight[1..] + [m];
      CapturesAppend(flight[1..], m);
    }
  }

  /** What holds of the link at every point. */
  predicate Balanced(l: Link) {
    && l.received + CapturesIn(l.flight) == l.sent <= l.granted
    && l.granted + l.lost == l.received + STREAM_CREDITS
  }

  lemma StepBalances(a: Link, b: Link)
    requires Balanced(a) && Step(a, b)
    ensures Balanced(b) && (a.lost == STREAM_CREDITS ==> b.lost == a.lost && b.received == a.received)
  {
    hide WellFormed;
    if m: Message :| (m.Binary? ==> a.sent < a.granted) && b == Sends(a, m) {
      CapturesAppend(a.flight, m);
    }
  }

  lemma {:induction false} PathBalances(links: seq<Link>, i: nat)
    requires Path(links) && i < |links| && Balanced(links[0])
    ensures Balanced(links[i])
    ensures links[0].lost == STREAM_CREDITS ==>
      links[i].lost == STREAM_CREDITS && links[i].received == links[0].received
  {
    if i > 0 {
      PathBalances(links, i - 1);
      assert Step(links[i - 1], links[i - 1 + 1]);
      hide Step, Balanced;
      StepBalances(links[i - 1], links[i]);
    }
  }

  /** Main result: in every state of every interleaving with a daemon that
  sends captures only against credit, at most four captures are in flight,
  fewer by every capture that earned no credit. */
  lemma WindowHolds(l: Link)
    requires Reaches(SUBSCRIBED, l)
    ensures Balanced(l) && CapturesIn(l.flight) <= STREAM_CREDITS - l.lost
  {
    StartBalances();
    hide CapturesIn, SUBSCRIBED, Step;
    var links :| Path(links) && links[0] == SUBSCRIBED && links[|links| - 1] == l;
    PathBalances(links, |links| - 1);
  }

  lemma StartBalances()
    ensures Balanced(SUBSCRIBED)
  {
  }

  /** Whether the client can still receive a capture. */
  ghost predicate Alive(l: Link) {
    exists next :: Reaches(l, next) && next.received > l.received
  }

  /** The client can take the messages in flight, up to a capture. */
  lemma {:induction false} TakesCapture(l: Link)
    requires l.phase.Reading? && CapturesIn(l.flight) > 0
    ensures Alive(l)
    decreases |l.flight|
  {
    hide WellFormed;
    var next := Takes(l, true);
    assert Step(l, next);
    ReachesSelf(l);
    hide Reaches, Step;
    ReachesStep(l, l, next);
    if !l.flight[0].Binary? {
      TakesCapture(next);
      var last :| Reaches(next, last) && last.received > next.received;
      ReachesTrans(l, next, last);
    }
  }

  /** A subscription is stuck exactly when four captures earned no credit. */
  lemma StuckExactly(l: Link)
    requires Balanced(l) && l.phase.Reading?
    ensures !Alive(l) <==> l.lost == STREAM_CREDITS
  {
    if l.lost == STREAM_CREDITS {
      forall next | Reaches(l, next)
        ensures next.received <= l.received
      {
        hide Step;
        var links :| Path(links) && links[0] == l && links[|links| - 1] == next;
        PathBalances(links, |links| - 1);
      }
    } else if CapturesIn(l.flight) > 0 {
      TakesCapture(l);
    } else {
      var next := Sends(l, Binary([]));
      assert Step(l, next);
      CapturesAppend(l.flight, Binary([]));
      ReachesSelf(l);
      TakesCapture(next);
      hide Reaches, Step;
      ReachesStep(l, l, next);
      var last :| Reaches(next, last) && last.received > next.received;
      ReachesTrans(l, next, last);
    }
  }

  // ----- the client's code against such a daemon

  /** The link of a client that has read everything sent so far. */
  function LinkOf(t: Tally): Link {
    Link(Reading, t.granted, [], t.received, t.received, t.lost)
  }

  /** A message is sent and taken at once. */
  lemma Passes(l: Link, m: Message, fails: bool)
    requires l.flight == [] && !l.phase.Over? && (m.Binary? ==> l.sent < l.granted)
    ensures Reaches(l, Takes(Sends(l, m), fails)) && Takes(Sends(l, m), fails).flight == []
  {
    var a := Sends(l, m);
    var b := Takes(a, fails);
    assert Step(l, a) && Step(a, b);
    ReachesSelf(l);
    hide Reaches, Step, WellFormed;
    ReachesStep(l, l, a);
    ReachesStep(l, a, b);
  }

  /** Looking for a frame is a run of the link. */
  lemma {:induction false} FrameRuns(l: Link, inbox: seq<Slot>, fails: bool)
    requires l.phase.Reading? && l.flight == []
    requires FrameIn(inbox, None).0.Some? ==> l.sent < l.granted
    ensures Reaches(l, match FrameIn(inbox, None).0
                       case None => l
                       case Some(f) => Takes(Sends(l, Binary(f)), fails))
    decreases |inbox|
  {
    hide WellFormed;
    ReachesSelf(l);
    if inbox != [] {
      FrameStep(inbox, None);
      if IsFrame(inbox[0]) {
        Passes(l, inbox[0].message, fails);
      } else if !EndsCall(inbox[0]) {
        FrameRuns(l, inbox[1..], fails);
      }
      hide FrameIn, Reaches;
    }
  }

  /** The daemon keeps to its credits: a capture is received only while more
  were granted than received. */
  ghost predicate Keeps(t: Tally, n: nat) {
    forall k: nat :: k < n && FrameIn(CalledTimes(t, k).inbox, None).0.Some? ==>
      CalledTimes(t, k).received < CalledTimes(t, k).granted
  }

  lemma CallRuns(t: Tally)
    requires FrameIn(t.inbox, None).0.Some? ==> t.received < t.granted
    ensures Reaches(LinkOf(t), LinkOf(Called(t)))
  {
    FrameRuns(LinkOf(t), t.inbox, Fails(t.failures));
    hide FrameIn, WellFormed, Reaches;
  }

  lemma {:induction false} CallsRun(t: Tally, n: nat)
    requires Keeps(t, n)
    ensures Reaches(LinkOf(t), LinkOf(CalledTimes(t, n)))
  {
    if n == 0 {
      ReachesSelf(LinkOf(t));
    } else {
      CallsRun(t, n - 1);
      var before := CalledTimes(t, n - 1);
      assert CalledTimes(t, n) == Called(before);
      hide Reaches, FrameIn, Called;
      CallRuns(before);
      ReachesTrans(LinkOf(t), LinkOf(before), LinkOf(CalledTimes(t, n)));
    }
  }

  /** The link after waiting for the reply, with `ahead` captures before it. */
  function AfterReply(l: Link, answered: bool, ahead: nat): Link {
    l.(phase := if answered then Reading else Over, sent := l.sent + ahead,
       received := l.received + ahead, lost := l.lost + ahead)
  }

  /** The slot that ends the wait. */
  lemma ReplyEnds(l: Link, slot: Slot)
    requires l.phase.Opening? && l.flight == []
    requires EndsCall(slot) || (slot.message.Text? && slot.message.reply.Answer?)
    ensures Reaches(l, AfterReply(l, !EndsCall(slot), 0)) && !IsFrame(slot)
  {
    if slot.TimeUp? {
      GivesUp(l);
    } else {
      Passes(l, slot.message, false);
    }
    hide Reaches;
  }

  /** A slot passed over. */
  lemma ReplyPasses(l: Link, slot: Slot)
    requires l.phase.Opening? && l.flight == [] && (IsFrame(slot) ==> l.sent < l.granted)
    requires !EndsCall(slot) && !(slot.message.Text? && slot.message.reply.Answer?)
    ensures var ahead := if IsFrame(slot) then 1 else 0;
      Reaches(l, l.(sent := l.sent + ahead, received := l.received + ahead, lost := l.lost + ahead))
  {
    hide WellFormed;
    Passes(l, slot.message, false);
    hide Reaches;
  }

  lemma FirstTaken(inbox: seq<Slot>, rest: seq<Slot>)
    requires inbox != [] && |rest| < |inbox|
    ensures FramesIn(Taken(inbox, rest)) ==
      FramesIn(Taken(inbox[1..], rest)) + if IsFrame(inbox[0]) then 1 else 0
  {
    assert Taken(inbox, rest) == [inbox[0]] + Taken(inbox[1..], rest);
    CountsAdd([inbox[0]], Taken(inbox[1..], rest));
    OneSlot(inbox[0]);
  }

  /** Waiting for the reply is a run of the link: captures ahead of it are
  received and earn nothing. */
  lemma {:induction false} ReplyRuns(l: Link, inbox: seq<Slot>)
    requires l.phase.Opening? && l.flight == []
    requires l.sent + FramesIn(Taken(inbox, ReplyIn(inbox).1)) <= l.granted
    ensures Reaches(l, AfterReply(l, ReplyIn(inbox).0.Some?, FramesIn(Taken(inbox, ReplyIn(inbox).1))))
    decreases |inbox|
  {
    if inbox == [] {
      GivesUp(l);
      hide Reaches;
    } else {
      ReplyStep(inbox);
      var first, tail, rest := inbox[0], inbox[1..], ReplyIn(inbox).1;
      FirstTaken(inbox, rest);
      if EndsCall(first) || (first.message.Text? && first.message.reply.Answer?) {
        ReplyEnds(l, first);
        assert FramesIn(Taken(tail, tail)) == 0;
        hide Reaches, ReplyIn;
      } else {
        hide ReplyIn, FramesIn, Taken, Reaches, IsFrame;
        ReplyPasses(l, first);
        var more := if IsFrame(first) then 1 else 0;
        var next := l.(sent := l.sent + more, received := l.received + more, lost := l.lost + more);
        var ahead := FramesIn(Taken(tail, rest));
        ReplyRuns(next, tail);
        ReachesTrans(l, next, AfterReply(next, ReplyIn(tail).0.Some?, ahead));
      }
    }
  }

  lemma GivesUp(l: Link)
    requires l.phase.Opening?
    ensures Reaches(l, l.(phase := Over))
  {
    ReachesSelf(l);
    assert Step(l, l.(phase := Over));
    hide Reaches, Step;
    ReachesStep(l, l, l.(phase := Over));
  }

  /** Main result: a subscription whose reply arrived, read any number of times
  against a daemon that keeps to its credits, is stuck if and only if four
  captures came ahead of the reply, did not decode, or failed to be credited. */
  lemma SubscriptionStuckExactly(inbox: seq<Slot>, failures: seq<bool>, n: nat)
    returns (taken: seq<Slot>, sends: seq<bool>)
    requires !Fails(failures) && ReplyIn(inbox).0.Some?
    requires var t := Opened(inbox, failures); t.received <= t.granted && Keeps(t, n)
    ensures var t, last := Opened(inbox, failures), CalledTimes(Opened(inbox, failures), n);
      && Spent(t, last, taken, sends)
      && Reaches(SUBSCRIBED, LinkOf(last)) && Balanced(LinkOf(last))
      && (!Alive(LinkOf(last)) <==> t.received + BrokenIn(taken) + FailuresIn(sends) == STREAM_CREDITS)
  {
    var t := Opened(inbox, failures);
    var last := CalledTimes(t, n);
    taken, sends := LostExactly(t, n);
    ReplyRuns(SUBSCRIBED, inbox);
    CallsRun(t, n);
    assert t.lost == t.received;
    hide Reaches, Path, CalledTimes, Keeps, FrameIn, ReplyIn, BrokenIn, FailuresIn, FramesIn;
    ReachesTrans(SUBSCRIBED, LinkOf(t), LinkOf(last));
    WindowHolds(LinkOf(last));
    StuckExactly(LinkOf(last));
  }

  const BROKEN := Arrived(Binary([]))

  lemma BrokenCall(t: Tally)
    requires t.inbox != [] && t.inbox[0] == BROKEN
    ensures FrameIn(t.inbox, None) == (Some([]), t.inbox[1..])
    ensures Called(t) == t.(received := t.received + 1, lost := t.lost + 1, inbox := t.inbox[1..])
  {
  }

  lemma OpenedAfterOne(rest: seq<Slot>)
    ensures var inbox := [BROKEN, Arrived(Text(Answer(None)))] + rest;
      ReplyIn(inbox).0.Some? && Opened(inbox, []) == Tally(STREAM_CREDITS, 1, 1, rest, [])
  {
    var reply := Arrived(Text(Answer(None)));
    var inbox := [BROKEN, reply] + rest;
    assert inbox[1..] == [reply] + rest && inbox[1..][1..] == rest;
    ReplyStep(inbox);
    ReplyStep(inbox[1..]);
    hide ReplyIn;
    assert Taken(inbox, rest) == [BROKEN] + [reply];
    CountsAdd([BROKEN], [reply]);
    OneSlot(BROKEN);
    OneSlot(reply);
  }

  /** It happens: one capture ahead of the reply and three that do not decode. */
  lemma StuckSubscription()
    ensures var inbox := [BROKEN, Arrived(Text(Answer(None)))] + [BROKEN, BROKEN, BROKEN];
      var t := Opened(inbox, []);
      && ReplyIn(inbox).0.Some? && Keeps(t, 3)
      && CalledTimes(t, 3).lost == STREAM_CREDITS && !Alive(LinkOf(CalledTimes(t, 3)))
  {
    hide ReplyIn, Opened, CalledTimes, Keeps, Alive, LinkOf, BROKEN;
    var three := [BROKEN, BROKEN, BROKEN];
    OpenedAfterOne(three);
    var t := Tally(STREAM_CREDITS, 1, 1, three, []);
    ThreeCalls(t);
    FourLost(CalledTimes(t, 3));
  }

  lemma FourLost(t: Tally)
    requires t.granted == t.received == t.lost == STREAM_CREDITS
    ensures !Alive(LinkOf(t))
  {
    hide Alive, LinkOf, Balanced, STREAM_CREDITS;
    EmptyFlight(t);
    StuckExactly(LinkOf(t));
  }

  lemma EmptyFlight(t: Tally)
    requires t.granted == t.received == t.lost == STREAM_CREDITS
    ensures Balanced(LinkOf(t)) && LinkOf(t).phase.Reading? && LinkOf(t).lost == STREAM_CREDITS
  {
  }

  lemma ThreeCalls(t: Tally)
    requires t.inbox == [BROKEN, BROKEN, BROKEN] && t.received < t.granted - 2
    ensures Keeps(t, 3)
    ensures CalledTimes(t, 3) == t.(received := t.received + 3, lost := t.lost + 3, inbox := [])
  {
    hide Called, FrameIn, BROKEN;
    var t1, t2 := Called(t), Called(Called(t));
    BrokenCall(t);
    assert t1.inbox == [BROKEN, BROKEN];
    BrokenCall(t1);
    assert t2.inbox == [BROKEN];
    BrokenCall(t2);
    assert CalledTimes(t, 0) == t;
    assert CalledTimes(t, 1) == t1;
    assert CalledTimes(t, 2) == t2;
    assert CalledTimes(t, 3) == Called(t2);
    hide CalledTimes;
    forall k: nat | k < 3 && FrameIn(CalledTimes(t, k).inbox, None).0.Some?
      ensures CalledTimes(t, k).received < CalledTimes(t, k).granted
    {
      assert k == 0 || k == 1 || k == 2;
    }
  }
}
