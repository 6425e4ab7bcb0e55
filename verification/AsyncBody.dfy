/** The poll-driven decoder of src/chunked.rs, over a source that may be
pending at any poll and may split the stream anywhere. */
module AsyncDecoder {
  import opened Bytes
  import opened ChunkedSpec

  /** One answer of the source: not yet, or up to this many bytes (at least one). */
  datatype Poll = Pending | Ready(size: nat)

  /** The capacity of a buffered reader as the client makes it. */
  const BUFFER_SIZE := 8192

  /** An async buffered reader. `script` lists the source's answers; past its
  end the source hands over all that fits. */
  class BufReader {
    const capacity: nat
    var buffered: bytes
    var unread: bytes
    var script: seq<Poll>

    /** `head` is what was buffered before the body was reached. */
    constructor (capacity: nat, head: bytes, raw: bytes, script: seq<Poll>)
      requires |head| <= capacity && 0 < capacity
      ensures this.capacity == capacity && buffered == head && unread == raw && this.script == script && Fits()
    {
      this.capacity, buffered, unread, this.script := capacity, head, raw, script;
    }

    predicate Fits()
      reads this
    {
      |buffered| <= capacity && 0 < capacity
    }

    ghost function Rest(): bytes
      reads this
    {
      buffered + unread
    }

    /** Ask the source itself for up to `want` bytes. */
    method PollSource(want: nat) returns (got: Option<bytes>)
      requires want > 0
      modifies this`unread, this`script
      ensures script == Later(old(script))
      ensures got == Given(old(script), old(unread), want)
      ensures if got.Some? then old(unread) == got.value + unread else unread == old(unread)
    {
      if script != [] && script[0].Pending? {
        script := script[1..];
        return None;
      }
      var n := Min(want, |unread|);
      if script != [] {
        n := Min(n, Max(1, script[0].size));
        script := script[1..];
      }
      got, unread := Some(unread[..n]), unread[n..];
    }

    /** Poll for buffered bytes; none, when ready, means the stream has closed. */
    method PollFillBuf() returns (pending: bool)
      requires Fits()
      modifies this
      ensures Fits() && Rest() == old(Rest())
      ensures if old(buffered) != []
              then !pending && script == old(script) && buffered == old(buffered) && unread == old(unread)
              else script == Later(old(script)) && pending == Given(old(script), old(unread), capacity).None?
      ensures pending ==> old(script) != [] && old(script)[0].Pending?
      ensures old(buffered) == [] && !pending ==> buffered == Given(old(script), old(unread), capacity).value
      ensures !pending ==> (buffered == [] <==> Rest() == [])
    {
      if buffered != [] {
        return false;
      }
      var got := PollSource(capacity);
      if got.None? {
        return true;
      }
      buffered := got.value;
      return false;
    }

    /** Poll for up to `want` bytes; an empty buffer is bypassed when the
    caller's is at least as large. */
    method PollRead(want: nat) returns (got: Option<bytes>)
      requires Fits() && want > 0
      modifies this
      ensures Fits()
      ensures got.Some? ==> old(Rest()) == got.value + Rest() && |got.value| <= want
      ensures got == Some([]) ==> old(Rest()) == []
      ensures old(buffered) != [] ==> got == Some(old(buffered)[..Min(want, |old(buffered)|)]) && unread == old(unread)
      ensures old(buffered) == [] && want >= capacity ==> got == Given(old(script), old(unread), want)
      ensures got.None? ==> Rest() == old(Rest()) && |script| < |old(script)|
      ensures |script| <= |old(script)|
    {
      if buffered == [] && want >= capacity {
        got := PollSource(want);
        return;
      }
      var pending := PollFillBuf();
      if pending {
        return None;
      }
      var n := Min(|buffered|, want);
      ghost var s := Rest();
      got := Some(buffered[..n]);
      assert s == got.value + s[n..];
      Consume(n);
    }

    method Consume(n: nat)
      requires n <= |buffered|
      modifies this`buffered
      ensures buffered == old(buffered)[n..]
      ensures Rest() == old(Rest())[n..]
    {
      buffered := buffered[n..];
    }
  }

  /** The script after one answer. */
  function Later(script: seq<Poll>): seq<Poll> {
    if script == [] then [] else script[1..]
  }

  /** The bytes that one answer hands over, if it is not a wait. */
  function Given(script: seq<Poll>, unread: bytes, want: nat): Option<bytes> {
    if script == [] then Some(unread[..Min(want, |unread|)])
    else
      match script[0]
      case Pending => None
      case Ready(size) => Some(unread[..Min(Max(1, size), Min(want, |unread|))])
  }

  datatype Framing = Chunked(state: State) | Length(left: nat) | UntilClose {
    predicate AtLine() {
      Chunked? && (state.Size? || state.DataEnd? || state.Trailers?)
    }

    function Rank(): nat {
      if Chunked? then state.Rank() else 0
    }
  }

  /** What a body's remaining bytes mean under each framing. */
  function Body(framing: Framing, s: bytes, rule: Rule): Decoded {
    match framing
    case Chunked(state) => Decode(state, s, rule)
    case Length(left) =>
      if |s| < left then Decoded(s, Failed(UnexpectedEof)) else Decoded(s[..left], Clean)
    case UntilClose => Decoded(s, Clean)
  }

  predicate Steady(framing: Framing, s: bytes, capacity: nat) {
    framing.Chunked? ==> Agreeable(framing.state, s, capacity)
  }

  // ----- the answers that let every line through that any answers would

  function Ones(n: nat): seq<Poll> {
    seq(n, _ => Ready(1))
  }

  /** Answers that hand over one line: a byte at a time while it may still turn
  out too long, and the rest of it at once. */
  function LinePlan(s: bytes, capacity: nat): seq<Poll> {
    if !LaxLine(s, capacity).Got? then []
    else
      var e := LineEnd(s);
      var slow := Min(e, MAX_SIZE_LINE + 1);
      Ones(slow) + [Ready(e + 1 - slow)]
  }

  /** Answers that split a body so that its lines and chunks end with a fill,
  and no line that could be returned is refused. */
  function Plan(st: State, s: bytes, capacity: nat): seq<Poll>
    decreases |s|, st.Rank()
  {
    match st
    case Done => []
    case Data(left) => if |s| < left then Ones(|s|) else Ones(left) + Plan(DataEnd, s[left..], capacity)
    case _ =>
      match LaxLine(s, capacity)
      case Got(text, rest) =>
        var next := Following(st, text);
        LinePlan(s, capacity) + (if next.None? then [] else Plan(next.value, rest, capacity))
      case _ => []
  }

  /** The state after a line, unless the line is a fault. */
  function Following(st: State, text: bytes): Option<State>
    requires st.Size? || st.DataEnd? || st.Trailers?
  {
    match st
    case Size =>
      var n :- ParseSize(text);
      Some(if n == 0 then Trailers else Data(n))
    case DataEnd => if text == [] then Some(Size) else None
    case _ => Some(if text == [] then Done else Trailers)
  }

  /** Part of a planned line has come: `script` are the answers left of `plan`. */
  predicate Follows(s: bytes, plan: seq<Poll>, capacity: nat, line: bytes, unread: bytes, script: seq<Poll>) {
    && LaxLine(s, capacity).Got? && LinePlan(s, capacity) <= plan
    && s == line + unread && |line| <= Min(LineEnd(s), MAX_SIZE_LINE + 1)
    && script == plan[|line|..]
  }

  lemma SlowStep(s: bytes, plan: seq<Poll>, capacity: nat, line: bytes, unread: bytes, script: seq<Poll>)
    requires Follows(s, plan, capacity, line, unread, script) && 0 < capacity
    requires |line| < Min(LineEnd(s), MAX_SIZE_LINE + 1)
    ensures unread != [] && script != [] && Given(script, unread, capacity) == Some(unread[..1])
    ensures LineEnd(unread[..1]) == 1
    ensures Follows(s, plan, capacity, line + unread[..1], unread[1..], Later(script))
  {
    assert script[0] == LinePlan(s, capacity)[|line|];
    assert unread[0] == s[|line|] != LF;
    LineEndIs(unread[..1], 1);
    hide LineEnd, LaxLine, LinePlan;
    assert s == (line + unread[..1]) + unread[1..];
  }

  lemma LastStep(s: bytes, plan: seq<Poll>, capacity: nat, line: bytes, unread: bytes, script: seq<Poll>)
    requires Follows(s, plan, capacity, line, unread, script) && 0 < capacity
    requires |line| == Min(LineEnd(s), MAX_SIZE_LINE + 1)
    ensures var at := LineEnd(s) - |line|;
      && at < |unread| && script != [] && Given(script, unread, capacity) == Some(unread[..at + 1])
      && LineEnd(unread[..at + 1]) == at
      && LaxLine(s, capacity) == Got(Text(s, LineEnd(s)), unread[at + 1..])
      && Later(script) == plan[|LinePlan(s, capacity)|..]
  {
    var at := LineEnd(s) - |line|;
    assert script[0] == LinePlan(s, capacity)[|line|];
    assert forall i :: 0 <= i <= at ==> unread[i] == s[|line| + i];
    LineEndIs(unread[..at + 1], at);
    assert s[LineEnd(s) + 1..] == unread[at + 1..];
  }

  /** The next answer of a plan hands over one more byte of the line, or the
  rest of it. */
  lemma FollowStep(s: bytes, plan: seq<Poll>, capacity: nat, line: bytes, unread: bytes, script: seq<Poll>)
    returns (piece: bytes)
    requires Follows(s, plan, capacity, line, unread, script) && 0 < capacity
    ensures Given(script, unread, capacity) == Some(piece) && piece != [] && piece <= unread && script != []
    ensures LineEnd(piece) == |piece| ==>
      && |line + piece| <= MAX_SIZE_LINE + 1
      && Follows(s, plan, capacity, line + piece, unread[|piece|..], Later(script))
    ensures LineEnd(piece) < |piece| ==>
      && LineEnd(piece) + 1 == |piece|
      && LaxLine(s, capacity) == Got(Text(s, |line| + LineEnd(piece)), unread[|piece|..])
      && Later(script) == plan[|LinePlan(s, capacity)|..]
  {
    hide LineEnd, LaxLine, LinePlan, Given, Later, Text, Ones;
    if |line| < Min(LineEnd(s), MAX_SIZE_LINE + 1) {
      SlowStep(s, plan, capacity, line, unread, script);
      piece := unread[..1];
      hide Follows;
    } else {
      LastStep(s, plan, capacity, line, unread, script);
      piece := unread[..LineEnd(s) - |line| + 1];
      hide Follows;
    }
  }

  function AfterData(left: nat, got: nat): (st: State)
    requires got <= left
    ensures st != Data(0)
  {
    if left == got then DataEnd else Data(left - got)
  }

  /** One byte of payload is one answer of the plan. */
  lemma PlanPayload(left: nat, s: bytes, capacity: nat)
    requires 0 < left
    ensures var plan := Plan(Data(left), s, capacity);
      if s == [] then plan == []
      else plan != [] && plan[0] == Ready(1)
           && plan[1..] == Plan(AfterData(left, 1), s[1..], capacity)
  {
    hide LinePlan, LaxLine, ParseSize;
    if s == [] {
      assert Ones(0) == [];
      return;
    }
    assert Ones(left) == [Ready(1)] + Ones(left - 1) && Ones(|s|) == [Ready(1)] + Ones(|s| - 1);
    assert Ones(0) == [];
    if left <= |s| {
      assert s[left..] == s[1..][left - 1..];
      Regroup([Ready(1)], Ones(left - 1), Plan(DataEnd, s[left..], capacity));
    }
  }

  datatype LinePoll = LinePending | LineReady(answer: Answer)

  datatype ReadPoll = ReadPending | ReadOk(out: bytes) | ReadErr(fault: Fault)

  class AsyncBody {
    const inner: BufReader
    var framing: Framing
    /** A line read so far, for lines that arrive in pieces. */
    var line: bytes

    constructor (inner: BufReader, chunked: bool, length: Option<nat>)
      requires inner.Fits()
      ensures this.inner == inner && line == [] && Valid() && Healthy()
      ensures framing == FramingOf(chunked, length)
    {
      this.inner := inner;
      framing := match (chunked, length)
        case (true, _) => Chunked(Size)
        case (false, Some(n)) => Length(n)
        case (false, None) => UntilClose;
      line := [];
    }

    predicate Valid()
      reads this
    {
      framing != Chunked(Data(0))
    }

    /** Holds until an error is reported: the partial line has no LF, is not
    yet too long, and is empty except while a line is being read. */
    predicate Healthy()
      reads this, inner
    {
      && inner.Fits()
      && LineEnd(line) == |line| <= MAX_SIZE_LINE + 1
      && (line != [] ==> framing.AtLine())
    }

    /** The raw bytes not yet accounted for, the partial line included. */
    ghost function Rest(): bytes
      reads this, inner
    {
      line + inner.Rest()
    }

    /** What is to come, by the blocking decoder's rule for long lines or by
    the most lenient one. */
    ghost function Meaning(lax: bool): Decoded
      reads this, inner
    {
      Body(framing, Rest(), if lax then Lenient(inner.capacity) else Strict)
    }

    /** The decoding is settled: by the stream, whatever the splits (not lax),
    or by a source that answers to plan (lax). */
    ghost predicate Settled(lax: bool)
      reads this, inner
    {
      if lax then Planned() else Steady(framing, Rest(), inner.capacity)
    }

    ghost predicate Planned()
      reads this, inner
    {
      && framing.Chunked? && line == [] && inner.buffered == []
      && inner.script == Plan(framing.state, inner.unread, inner.capacity)
    }

    /** The next line comes in full, and to plan. */
    ghost predicate LinePlanned()
      reads this, inner
    {
      line == [] && inner.buffered == [] && Follows(Rest(), inner.script, inner.capacity, [], inner.unread, inner.script)
    }

    /** One poll moves meaning from `before` into its answer. */
    ghost predicate Delivers(lax: bool, before: Decoded, r: ReadPoll)
      reads this, inner
    {
      match r
      case ReadPending => Settled(lax) && Meaning(lax) == before
      case ReadOk(out) => Settled(lax) && before == Meaning(lax).After(out)
      case ReadErr(f) => before == Fail(f)
    }

    /** One framing line either ends the poll or leaves the meaning as it was. */
    ghost predicate Moves(lax: bool, before: Decoded, stop: Option<ReadPoll>)
      reads this, inner
    {
      match stop
      case Some(r) => Delivers(lax, before, r)
      case None => Settled(lax) && Meaning(lax) == before
    }

    /** Poll for one line. A line over 1026 bytes may be returned or refused,
    as the splits have it; it is returned where they are planned for that. */
    method PollLine() returns (r: LinePoll)
      requires Healthy() && framing.AtLine()
      modifies this`line, inner
      ensures inner.Fits() && |inner.script| <= |old(inner.script)|
      ensures r.LinePending? ==>
        Rest() == old(Rest()) && Healthy() && |inner.script| < |old(inner.script)|
      ensures r.LineReady? && !r.answer.Wrong? ==>
        LaxLine(old(Rest()), inner.capacity) == r.answer.With(Rest()) && line == []
      ensures r == LineReady(Nothing) ==> Rest() == old(Rest())
      ensures r.LineReady? && r.answer.Wrong? ==>
        LaxLine(old(Rest()), inner.capacity) == r.answer.With([])
        || (r.answer == Wrong(InvalidData) && MAX_SIZE_LINE + 2 <= LineEnd(old(Rest())))
      ensures r.LineReady? && r.answer.Line? ==> |Rest()| < |old(Rest())|
      ensures r == LineReady(Nothing) ==> old(Rest()) == []
      ensures old(LinePlanned()) ==> (r.LineReady? && r.answer.Line? && inner.buffered == []
        && inner.script == old(inner.script)[|LinePlan(old(Rest()), inner.capacity)|..])
    {
      hide LineEnd, LaxLine, LinePlan, Given, Later, Follows, Text, MAX_SIZE_LINE, LF, CR;
      ghost var s, plan, capacity := Rest(), inner.script, inner.capacity;
      ghost var planned := LinePlanned();
      while true
        invariant s == Rest() && Healthy()
        invariant |inner.script| <= |plan|
        invariant planned ==>
          inner.buffered == [] && Follows(s, plan, capacity, line, inner.unread, inner.script)
        decreases |inner.Rest()|
      {
        ghost var unread := inner.unread;
        if planned {
          var _ := FollowStep(s, plan, capacity, line, inner.unread, inner.script);
        }
        LaterIsShorter(inner.script);
        var pending := inner.PollFillBuf();
        if pending {
          return LinePending;
        }
        if inner.buffered == [] {
          assert s == line;
          LineAtClose(s, capacity);
          return LineReady(if line == [] then Nothing else Wrong(UnexpectedEof));
        }
        if planned {
          FrontTaken(unread, inner.buffered, inner.unread);
        }
        LineEndAfter(s, line, inner.buffered, inner.unread);
        if LineEnd(inner.buffered) < |inner.buffered| {
          LineInReach(s, |line|, LineEnd(inner.buffered), capacity);
        }
        var text, done := TakePiece();
        if done {
          return LineReady(Line(text));
        }
        if |line| > MAX_SIZE_LINE + 1 {
          return LineReady(Wrong(InvalidData));
        }
      }
    }

    /** Move buffered bytes into the partial line, through the first LF; a
    line completed that way is taken out, without its terminator. */
    method TakePiece() returns (text: bytes, done: bool)
      requires inner.buffered != [] && LineEnd(line) == |line| && inner.Fits()
      modifies this`line, inner`buffered
      ensures inner.Fits()
      ensures done <==> LineEnd(old(inner.buffered)) < |old(inner.buffered)|
      ensures done ==> line == [] && inner.buffered == old(inner.buffered)[LineEnd(old(inner.buffered)) + 1..]
      ensures done ==> var s := old(Rest()); var e := |old(line)| + LineEnd(old(inner.buffered));
        e < |s| && text == Text(s, e) && Rest() == s[e + 1..]
      ensures !done ==> line == old(line + inner.buffered) && inner.buffered == [] && Rest() == old(Rest())
    {
      hide LineEnd, Text, LF;
      ghost var s := Rest();
      var at := LineEnd(inner.buffered);
      done := at < |inner.buffered|;
      text := [];
      if done {
        SplitAt(line, inner.buffered, inner.unread, at);
        TextOf(s, |line| + at, line + inner.buffered[..at]);
        text := line + inner.buffered[..at];
        inner.Consume(at + 1);
        if text != [] && text[|text| - 1] == CR {
          text := text[..|text| - 1];
        }
        line := [];
      } else {
        JoinAll(line, inner.buffered, inner.unread);
        line := line + inner.buffered;
        inner.Consume(|inner.buffered|);
      }
    }

    /** Copy up to `left` bytes into a caller's buffer of `size`. */
    method PollPayload(size: nat, left: nat) returns (r: ReadPoll)
      requires line == [] && size > 0 && left > 0 && inner.Fits()
      modifies inner
      ensures inner.Fits() && |inner.script| <= |old(inner.script)|
      ensures r.ReadPending? ==>
        Rest() == old(Rest()) && |inner.script| < |old(inner.script)| && old(inner.script)[0].Pending?
      ensures !r.ReadErr?
      ensures r.ReadOk? ==> old(Rest()) == r.out + Rest() && |r.out| <= Min(size, left)
      ensures r.ReadOk? && r.out == [] ==> old(Rest()) == []
      ensures old(inner.buffered) == [] && old(inner.script) != [] && old(inner.script)[0] == Ready(1) ==>
        && r.ReadOk? && inner.buffered == [] && inner.script == old(inner.script)[1..]
        && (old(inner.unread) != [] ==> |r.out| == 1 && inner.unread == old(inner.unread)[1..])
    {
      var pending := inner.PollFillBuf();
      if pending {
        return ReadPending;
      }
      ghost var s := inner.Rest();
      var n := Min(|inner.buffered|, Min(size, left));
      var out := inner.buffered[..n];
      assert s == out + s[n..];
      inner.Consume(n);
      return ReadOk(out);
    }

    /** Poll for up to `size` bytes. For a settled stream the bytes returned
    are the front of what the stream means, wherever the source was pending
    and however it split. */
    method PollRead(size: nat) returns (r: ReadPoll)
      requires Valid() && Healthy()
      modifies this, inner
      ensures Valid() && (!r.ReadErr? ==> Healthy())
      ensures |inner.script| <= |old(inner.script)|
      ensures size == 0 ==> r == ReadOk([]) && framing == old(framing) && Rest() == old(Rest())
      ensures old(Settled(false)) ==> Delivers(false, old(Meaning(false)), r)
      ensures old(Settled(true)) ==> Delivers(true, old(Meaning(true)), r)
      ensures r.ReadPending? ==> |inner.script| < |old(inner.script)|
      ensures !r.ReadErr? ==> |Rest()| <= |old(Rest())|
      ensures r.ReadOk? ==> |r.out| <= size && |Rest()| + |r.out| <= |old(Rest())|
      ensures size > 0 && r == ReadOk([]) ==> Meaning(false) == Meaning(true) == CLEAN
    {
      hide Decode, Agreeable, Plan;
      if size == 0 {
        return ReadOk([]);
      }
      if !framing.Chunked? {
        r := PollPlain(size);
        return;
      }
      while true
        invariant Valid() && Healthy() && framing.Chunked?
        invariant |inner.script| <= |old(inner.script)|
        invariant |Rest()| <= |old(Rest())|
        invariant old(Settled(false)) ==> Settled(false) && Meaning(false) == old(Meaning(false))
        invariant old(Settled(true)) ==> Settled(true) && Meaning(true) == old(Meaning(true))
        decreases |Rest()|, framing.Rank()
      {
        match framing
        case Chunked(Done) =>
          DecodeDone(Rest(), inner.capacity);
          return ReadOk([]);
        case Chunked(Data(left)) =>
          r := PollChunk(size, left);
          return;
        case Chunked(Size) =>
          var stop := PollSize();
          if stop.Some? {
            return stop.value;
          }
        case Chunked(DataEnd) =>
          var stop := PollDataEnd();
          if stop.Some? {
            return stop.value;
          }
        case Chunked(Trailers) =>
          var stop := PollTrailers();
          if stop.Some? {
            return stop.value;
          }
      }
    }

    /** One poll of a body that is not chunked. */
    method PollPlain(size: nat) returns (r: ReadPoll)
      requires Valid() && Healthy() && !framing.Chunked? && size > 0
      modifies this`framing, inner
      ensures Valid() && Healthy() && !framing.Chunked?
      ensures |inner.script| <= |old(inner.script)|
      ensures Delivers(false, old(Meaning(false)), r)
      ensures r.ReadPending? ==> |inner.script| < |old(inner.script)| && Rest() == old(Rest())
      ensures r.ReadOk? ==> |r.out| <= size && |Rest()| + |r.out| <= |old(Rest())|
      ensures r == ReadOk([]) ==> Meaning(false) == Meaning(true) == CLEAN
    {
      if framing.UntilClose? {
        var got := inner.PollRead(size);
        assert line == [] && Rest() == inner.Rest() && old(Rest()) == old(inner.Rest());
        assert got.Some? && got.value == [] ==> Rest() == [];
        r := if got.Some? then ReadOk(got.value) else ReadPending;
        return;
      }
      if framing.left == 0 {
        return ReadOk([]);
      }
      ghost var s, left := Rest(), framing.left;
      r := PollPayload(size, framing.left);
      if r.ReadOk? {
        if r.out == [] {
          return ReadErr(UnexpectedEof);
        }
        framing := Length(framing.left - |r.out|);
        assert left <= |s| ==> s[..left] == r.out + Rest()[..framing.left];
      }
    }

    /** One poll inside a chunk with `left` bytes to go. */
    method PollChunk(size: nat, left: nat) returns (r: ReadPoll)
      requires Valid() && Healthy() && framing == Chunked(Data(left)) && size > 0
      modifies this`framing, inner
      ensures Valid() && Healthy()
      ensures |inner.script| <= |old(inner.script)|
      ensures old(Settled(false)) ==> Delivers(false, old(Meaning(false)), r)
      ensures old(Settled(true)) ==> Delivers(true, old(Meaning(true)), r)
      ensures r.ReadPending? ==> |inner.script| < |old(inner.script)| && Rest() == old(Rest())
      ensures r.ReadOk? ==> 0 < |r.out| <= size && |Rest()| + |r.out| <= |old(Rest())|
    {
      hide Decode, Agreeable, Plan, AfterData;
      ghost var s := Rest();
      if Planned() {
        assert s == inner.unread;
        PlanPayload(left, s, inner.capacity);
      }
      r := PollPayload(size, left);
      assert line == [] && inner.buffered == [] ==> Rest() == inner.unread;
      ChunkCutShort(left, s);
      if r.ReadOk? {
        if r.out == [] {
          return ReadErr(UnexpectedEof);
        }
        ChunkGoesOn(left, s, r.out, Rest(), inner.capacity);
        framing := Chunked(AfterData(left, |r.out|));
      }
    }

    /** Expecting a chunk-size line: an answer for the caller, or a move to the
    next state. */
    method PollSize() returns (stop: Option<ReadPoll>)
      requires Valid() && Healthy() && framing == Chunked(Size)
      modifies this, inner
      ensures Valid() && framing.Chunked? && (Healthy() || (stop.Some? && stop.value.ReadErr?))
      ensures |inner.script| <= |old(inner.script)|
      ensures stop.Some? ==> !stop.value.ReadOk?
      ensures stop == Some(ReadPending) ==> |inner.script| < |old(inner.script)| && Rest() == old(Rest())
      ensures old(Settled(false)) ==> Moves(false, old(Meaning(false)), stop)
      ensures old(Settled(true)) ==> Moves(true, old(Meaning(true)), stop)
      ensures stop.None? ==> |Rest()| < |old(Rest())| || (Rest() == old(Rest()) && framing == Chunked(Done))
    {
      hide Decode, Agreeable, Plan, LinePlan, LaxLine, Follows, LineEnd, ParseSize;
      ghost var s, capacity := Rest(), inner.capacity;
      if Planned() {
        assert s == inner.unread;
        PlanAtLine(Size, s, capacity);
      }
      var p := PollLine();
      assert line == [] && inner.buffered == [] ==> Rest() == inner.unread;
      match p
      case LinePending => return Some(ReadPending);
      case LineReady(Wrong(f)) =>
        WrongLineRead(Size, s, f, capacity);
        return Some(ReadErr(f));
      case LineReady(Nothing) =>
        NoLineRead(Size);
        DecodeDone([], capacity);
        framing := Chunked(Done);
        return None;
      case LineReady(Line(text)) =>
        var size := ParseSize(text);
        if size.None? {
          SizeLineRead(s, text, Rest(), None, capacity);
          return Some(ReadErr(InvalidData));
        }
        SizeLineRead(s, text, Rest(), Some(if size.value == 0 then Trailers else Data(size.value)), capacity);
        framing := Chunked(if size.value == 0 then Trailers else Data(size.value));
        return None;
    }

    /** Expecting the line that closes a chunk. */
    method PollDataEnd() returns (stop: Option<ReadPoll>)
      requires Valid() && Healthy() && framing == Chunked(DataEnd)
      modifies this, inner
      ensures Valid() && framing.Chunked? && (Healthy() || (stop.Some? && stop.value.ReadErr?))
      ensures |inner.script| <= |old(inner.script)|
      ensures stop.Some? ==> !stop.value.ReadOk?
      ensures stop == Some(ReadPending) ==> |inner.script| < |old(inner.script)| && Rest() == old(Rest())
      ensures old(Settled(false)) ==> Moves(false, old(Meaning(false)), stop)
      ensures old(Settled(true)) ==> Moves(true, old(Meaning(true)), stop)
      ensures stop.None? ==> |Rest()| < |old(Rest())| || (Rest() == old(Rest()) && framing == Chunked(Done))
    {
      hide Decode, Agreeable, Plan, LinePlan, LaxLine, Follows, LineEnd, ParseSize;
      ghost var s, capacity := Rest(), inner.capacity;
      if Planned() {
        assert s == inner.unread;
        PlanAtLine(DataEnd, s, capacity);
      }
      var p := PollLine();
      assert line == [] && inner.buffered == [] ==> Rest() == inner.unread;
      match p
      case LinePending => return Some(ReadPending);
      case LineReady(Wrong(f)) =>
        WrongLineRead(DataEnd, s, f, capacity);
        return Some(ReadErr(f));
      case LineReady(Nothing) =>
        NoLineRead(DataEnd);
        return Some(ReadErr(UnexpectedEof));
      case LineReady(Line(text)) =>
        DataEndLineRead(s, text, Rest(), if text == [] then Some(Size) else None, capacity);
        if text != [] {
          return Some(ReadErr(InvalidData));
        }
        framing := Chunked(Size);
        return None;
    }

    /** Expecting a trailer line or the blank line after them. */
    method PollTrailers() returns (stop: Option<ReadPoll>)
      requires Valid() && Healthy() && framing == Chunked(Trailers)
      modifies this, inner
      ensures Valid() && framing.Chunked? && (Healthy() || (stop.Some? && stop.value.ReadErr?))
      ensures |inner.script| <= |old(inner.script)|
      ensures stop.Some? ==> !stop.value.ReadOk?
      ensures stop == Some(ReadPending) ==> |inner.script| < |old(inner.script)| && Rest() == old(Rest())
      ensures old(Settled(false)) ==> Moves(false, old(Meaning(false)), stop)
      ensures old(Settled(true)) ==> Moves(true, old(Meaning(true)), stop)
      ensures stop.None? ==> |Rest()| < |old(Rest())| || (Rest() == old(Rest()) && framing == Chunked(Done))
    {
      hide Decode, Agreeable, Plan, LinePlan, LaxLine, Follows, LineEnd, ParseSize;
      ghost var s, capacity := Rest(), inner.capacity;
      if Planned() {
        assert s == inner.unread;
        PlanAtLine(Trailers, s, capacity);
      }
      var p := PollLine();
      assert line == [] && inner.buffered == [] ==> Rest() == inner.unread;
      match p
      case LinePending => return Some(ReadPending);
      case LineReady(Wrong(f)) =>
        WrongLineRead(Trailers, s, f, capacity);
        return Some(ReadErr(f));
      case LineReady(Nothing) =>
        NoLineRead(Trailers);
        DecodeDone([], capacity);
        framing := Chunked(Done);
        return None;
      case LineReady(Line(text)) =>
        TrailerLineRead(s, text, Rest(), if text == [] then Done else Trailers, capacity);
        if text == [] {
          framing := Chunked(Done);
        }
        return None;
    }
  }

  lemma LaterIsShorter(script: seq<Poll>)
    ensures |Later(script)| <= |script| && (script != [] ==> |Later(script)| < |script|)
  {
  }

  lemma LineAtClose(s: bytes, capacity: nat)
    ensures s == [] ==> LaxLine(s, capacity) == NoLine
    ensures s != [] && LineEnd(s) == |s| <= MAX_SIZE_LINE + 1 ==> LaxLine(s, capacity) == Bad(UnexpectedEof)
    ensures s != [] && LineEnd(s) == |s| ==> !LaxLine(s, capacity).Got?
  {
  }

  /** A line that ends in a fill, after at most 1025 bytes, is one that the
  most lenient reader returns. */
  lemma LineInReach(s: bytes, before: nat, at: nat, capacity: nat)
    requires LineEnd(s) == before + at < |s| && before <= MAX_SIZE_LINE + 1 && at < capacity
    ensures LaxLine(s, capacity) == Got(Text(s, before + at), s[before + at + 1..])
  {
  }

  lemma FrontTaken(unread: bytes, piece: bytes, rest: bytes)
    requires [] + unread == piece + rest
    ensures rest == unread[|piece|..]
  {
    assert (piece + rest)[|piece|..] == rest && [] + unread == unread;
  }

  lemma ChunkCutShort(left: nat, s: bytes)
    ensures |s| < left ==> forall rule :: Decode(Data(left), s, rule) == Decoded(s, Failed(UnexpectedEof))
  {
  }

  lemma ChunkGoesOn(left: nat, s: bytes, out: bytes, rest: bytes, capacity: nat)
    requires s == out + rest && 0 < |out| <= left && 0 < capacity
    ensures forall rule :: Decode(Data(left), s, rule) == Decode(AfterData(left, |out|), rest, rule).After(out)
    ensures Agreeable(Data(left), s, capacity) <==> Agreeable(AfterData(left, |out|), rest, capacity)
  {
    hide Decode, Agreeable;
    forall rule
      ensures Decode(Data(left), s, rule) == Decode(AfterData(left, |out|), rest, rule).After(out)
    {
      DataStep(left, out, rest, rule);
    }
    DataStepAgreeable(left, out, rest, capacity);
  }

  lemma DecodeDone(s: bytes, capacity: nat)
    ensures forall rule :: Decode(Done, s, rule) == CLEAN
    ensures Agreeable(Done, s, capacity) && Plan(Done, s, capacity) == []
  {
  }

  /** A plan begins with the line's own answers and goes on with the rest's. */
  lemma PlanAtLine(st: State, s: bytes, capacity: nat)
    requires st.Size? || st.DataEnd? || st.Trailers?
    ensures !LaxLine(s, capacity).Got? ==> Plan(st, s, capacity) == []
    ensures LaxLine(s, capacity).Got? ==>
      var plan := Plan(st, s, capacity);
      var Got(text, rest) := LaxLine(s, capacity);
      && Follows(s, plan, capacity, [], s, plan)
      && (Following(st, text).Some? ==>
          plan[|LinePlan(s, capacity)|..] == Plan(Following(st, text).value, rest, capacity))
  {
    hide ParseSize, LinePlan, LaxLine, LineEnd;
    assert [] + s == s;
  }

  /** What a line reader's answer does to the decoding of the stream `s` it was
  given in state `st`: `after` is the state to go on in, or the fault. */
  ghost predicate Continues(st: State, s: bytes, rule: Rule, after: Option<State>, rest: bytes, fault: Fault) {
    match after
    case None => Decode(st, s, rule) == Fail(fault)
    case Some(next) => Decode(next, rest, rule) == Decode(st, s, rule)
  }

  /** A refused line is a fault of the stream. */
  lemma WrongLineRead(st: State, s: bytes, fault: Fault, capacity: nat)
    requires (st.Size? || st.DataEnd? || st.Trailers?) && 0 < capacity
    requires LaxLine(s, capacity) == Bad(fault) || (fault == InvalidData && MAX_SIZE_LINE + 2 <= LineEnd(s))
    ensures !LaxLine(s, capacity).Got? ==> Decode(st, s, Lenient(capacity)) == Fail(fault)
    ensures Agreeable(st, s, capacity) ==> Decode(st, s, Strict) == Fail(fault)
  {
    hide ParseSize, Endless;
  }

  /** A size line taken from an agreeable stream, over-long or not. */
  lemma SizeLineRead(s: bytes, text: bytes, rest: bytes, after: Option<State>, capacity: nat)
    requires LaxLine(s, capacity) == Got(text, rest) && 0 < capacity
    requires match ParseSize(text)
             case None => after == None
             case Some(n) => after == Some(if n == 0 then Trailers else Data(n))
    ensures Continues(Size, s, Lenient(capacity), after, rest, InvalidData)
    ensures Agreeable(Size, s, capacity) ==>
      Continues(Size, s, Strict, after, rest, InvalidData) && (after.Some? ==> Agreeable(after.value, rest, capacity))
  {
    if Endless(rest, capacity) {
      EndlessFails(rest, capacity);
    }
    hide Endless, ParseSize;
  }

  lemma DataEndLineRead(s: bytes, text: bytes, rest: bytes, after: Option<State>, capacity: nat)
    requires LaxLine(s, capacity) == Got(text, rest) && 0 < capacity
    requires after == if text == [] then Some(Size) else None
    ensures Continues(DataEnd, s, Lenient(capacity), after, rest, InvalidData)
    ensures Agreeable(DataEnd, s, capacity) ==>
      Continues(DataEnd, s, Strict, after, rest, InvalidData) && (after.Some? ==> Agreeable(after.value, rest, capacity))
  {
    hide Endless, ParseSize;
  }

  /** A trailer line taken from an agreeable stream, over-long or not. */
  lemma TrailerLineRead(s: bytes, text: bytes, rest: bytes, after: State, capacity: nat)
    requires LaxLine(s, capacity) == Got(text, rest) && 0 < capacity
    requires after == if text == [] then Done else Trailers
    ensures Decode(after, rest, Lenient(capacity)) == Decode(Trailers, s, Lenient(capacity))
    ensures Agreeable(Trailers, s, capacity) ==>
      Decode(after, rest, Strict) == Decode(Trailers, s, Strict) && Agreeable(after, rest, capacity)
  {
    if Endless(rest, capacity) {
      EndlessFails(rest, capacity);
    }
    hide Endless, ParseSize;
  }

  /** A close where a line was expected. */
  lemma NoLineRead(st: State)
    requires st.Size? || st.DataEnd? || st.Trailers?
    ensures forall rule :: Decode(st, [], rule) == if st.DataEnd? then Fail(UnexpectedEof) else CLEAN
  {
  }

  lemma TextOf(s: bytes, e: nat, text: bytes)
    requires e <= |s| && text == s[..e]
    ensures Text(s, e) == if text != [] && text[|text| - 1] == CR then text[..|text| - 1] else text
  {
  }

  lemma SplitAt(before: bytes, piece: bytes, unread: bytes, at: nat)
    requires at < |piece|
    ensures var s := before + (piece + unread);
      && s[..|before| + at] == before + piece[..at]
      && s[|before| + at + 1..] == [] + (piece[at + 1..] + unread)
  {
    var s := before + (piece + unread);
    assert (piece + unread)[at + 1..] == piece[at + 1..] + unread;
  }

  lemma JoinAll(before: bytes, piece: bytes, unread: bytes)
    ensures before + (piece + unread) == (before + piece) + (piece[|piece|..] + unread)
  {
  }

  /** Poll a body to its end or first error, with caller buffers of the given
  sizes (32 bytes once they run out). */
  method Collect(body: AsyncBody, sizes: seq<nat>) returns (d: Decoded)
    requires body.Valid() && body.Healthy()
    requires forall i :: 0 <= i < |sizes| ==> sizes[i] > 0
    modifies body, body.inner
    ensures old(body.Settled(false)) ==> d == old(body.Meaning(false))
    ensures old(body.Settled(true)) ==> d == old(body.Meaning(true))
  {
    hide Decode, Agreeable, Plan;
    var out := [];
    var sizes := sizes;
    EmptyAfter(body.Meaning(false));
    EmptyAfter(body.Meaning(true));
    while true
      invariant body.Valid() && body.Healthy()
      invariant forall i :: 0 <= i < |sizes| ==> sizes[i] > 0
      invariant old(body.Settled(false)) ==>
        body.Settled(false) && old(body.Meaning(false)) == body.Meaning(false).After(out)
      invariant old(body.Settled(true)) ==>
        body.Settled(true) && old(body.Meaning(true)) == body.Meaning(true).After(out)
      decreases |body.inner.script| + |body.Rest()|
    {
      var size := 32;
      if sizes != [] {
        size, sizes := sizes[0], sizes[1..];
      }
      var r := body.PollRead(size);
      match r
      case ReadPending =>
      case ReadErr(f) => return Decoded(out, Failed(f));
      case ReadOk(got) =>
        if got == [] {
          return Decoded(out, Clean);
        }
        AfterTwice(body.Meaning(false), out, got);
        AfterTwice(body.Meaning(true), out, got);
        out := out + got;
    }
  }

  /** Read a whole body; `head` was already buffered. A stream that is not
  steady is decoded as leniently as can be when the source answers to plan. */
  method ReadToEnd(capacity: nat, chunked: bool, length: Option<nat>, head: bytes, raw: bytes, script: seq<Poll>,
                   sizes: seq<nat>)
    returns (d: Decoded)
    requires |head| <= capacity && 0 < capacity
    requires forall i :: 0 <= i < |sizes| ==> sizes[i] > 0
    ensures var framing := FramingOf(chunked, length);
      Steady(framing, head + raw, capacity) ==> d == Body(framing, head + raw, Strict)
    ensures chunked && Agreeable(Size, head + raw, capacity) ==> d == Decode(Size, head + raw, Strict)
    ensures chunked && head == [] && script == Plan(Size, raw, capacity) ==> d == Decode(Size, raw, Lenient(capacity))
    ensures !chunked && length.Some? ==>
      && d.payload == (head + raw)[..Min(length.value, |head + raw|)]
      && d.outcome == if length.value <= |head + raw| then Clean else Failed(UnexpectedEof)
    ensures !chunked && length.None? ==> d == Decoded(head + raw, Clean)
  {
    hide Decode, Agreeable, Plan;
    var inner := new BufReader(capacity, head, raw, script);
    var body := new AsyncBody(inner, chunked, length);
    assert body.Rest() == head + raw;
    assert head == [] ==> head + raw == raw;
    d := Collect(body, sizes);
  }

  lemma EmptyAfter(d: Decoded)
    ensures d.After([]) == d
  {
  }

  function FramingOf(chunked: bool, length: Option<nat>): Framing {
    if chunked then Chunked(Size) else if length.Some? then Length(length.value) else UntilClose
  }
}
