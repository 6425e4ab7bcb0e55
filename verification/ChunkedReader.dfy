/** The blocking decoder of src/chunked.rs, over a source whose reads may be
short at any point. */
module BlockingDecoder {
  import opened Bytes
  import opened ChunkedSpec

  /** The bytes that one read of a source hands over: as many as are asked for
  and there, or fewer. */
  function Handed(script: seq<nat>, unread: bytes, want: nat): bytes {
    var n := Min(want, |unread|);
    unread[..if script == [] then n else Min(n, Max(1, script[0]))]
  }

  /** A buffered reader over a byte source. `script` says how many bytes each
  read of the source hands over at most; past its end reads are not cut short. */
  class BufReader {
    const capacity: nat
    var buffered: bytes
    var unread: bytes
    var script: seq<nat>

    constructor (capacity: nat, raw: bytes, script: seq<nat>)
      ensures Rest() == raw && this.capacity == capacity
    {
      this.capacity, this.buffered, this.unread, this.script := capacity, [], raw, script;
    }

    /** Everything still to be read. */
    ghost function Rest(): bytes
      reads this
    {
      buffered + unread
    }

    /** One read of the source itself. */
    method ReadSource(want: nat) returns (got: bytes)
      requires want > 0
      modifies this`unread, this`script
      ensures |got| <= want && old(unread) == got + unread
      ensures got == [] <==> old(unread) == []
      ensures got == Handed(old(script), old(unread), want)
      ensures script == if old(script) == [] then [] else old(script)[1..]
    {
      var n := Min(want, |unread|);
      if script != [] {
        n := Min(n, Max(1, script[0]));
        script := script[1..];
      }
      got, unread := unread[..n], unread[n..];
    }

    /** Make sure the buffer holds something, unless the stream has closed. */
    method FillBuf()
      requires capacity > 0
      modifies this
      ensures Rest() == old(Rest())
      ensures buffered == [] <==> Rest() == []
      ensures if old(buffered) == [] then buffered == Handed(old(script), old(unread), capacity)
              else buffered == old(buffered) && unread == old(unread)
    {
      if buffered == [] {
        buffered := ReadSource(capacity);
      }
    }

    method Consume(n: nat)
      requires n <= |buffered|
      modifies this`buffered
      ensures buffered == old(buffered)[n..]
      ensures Rest() == old(Rest())[n..]
    {
      buffered := buffered[n..];
    }

    /** Read into a caller's buffer of `want` bytes; an empty buffer is
    bypassed when the caller's is at least as large. */
    method Read(want: nat) returns (got: bytes)
      requires capacity > 0 && want > 0
      modifies this
      ensures |got| <= want && old(Rest()) == got + Rest()
      ensures got == [] <==> old(Rest()) == []
      ensures old(buffered) != [] ==> got == old(buffered)[..Min(want, |old(buffered)|)] && unread == old(unread)
      ensures old(buffered) == [] && want >= capacity ==> got == Handed(old(script), old(unread), want)
    {
      if buffered == [] && want >= capacity {
        got := ReadSource(want);
      } else {
        FillBuf();
        var n := Min(want, |buffered|);
        got := buffered[..n];
        ghost var s := Rest();
        assert s == got + s[n..];
        Consume(n);
      }
    }

    /** Take the buffered bytes through the first LF, `left` at most. */
    method TakePiece(left: nat) returns (piece: bytes, done: bool)
      requires capacity > 0
      modifies this
      ensures old(Rest()) == piece + Rest() && |piece| <= left
      ensures done <==> piece == [] || piece[|piece| - 1] == LF
      ensures forall i :: 0 <= i < |piece| - 1 ==> piece[i] != LF
      ensures piece == [] ==> left == 0 || old(Rest()) == []
    {
      var available := [];
      if left > 0 {
        FillBuf();
        available := buffered[..Min(left, |buffered|)];
      }
      var at := LineEnd(available);
      var used := Min(at + 1, |available|);
      piece, done := available[..used], at < |available| || used == 0;
      Consume(used);
    }

    /** Read through the first LF, or `limit` bytes, or to the close,
    whichever comes first. */
    method ReadUntil(limit: nat) returns (line: bytes)
      requires capacity > 0
      modifies this
      ensures old(Rest()) == line + Rest()
      ensures |line| == Min(limit, Min(LineEnd(old(Rest())) + 1, |old(Rest())|))
    {
      ghost var s := Rest();
      line := [];
      while true
        invariant s == line + Rest() && |line| <= limit
        invariant |line| <= LineEnd(s)
        decreases |Rest()|
      {
        ghost var before := line;
        var piece, done := TakePiece(limit - |line|);
        line := line + piece;
        LineGrows(s, before, piece, Rest());
        if done {
          return;
        }
      }
    }
  }

  /** One more piece of a line without an LF so far. */
  lemma LineGrows(s: bytes, line: bytes, piece: bytes, rest: bytes)
    requires s == line + (piece + rest) && |line| <= LineEnd(s)
    requires forall i :: 0 <= i < |piece| - 1 ==> piece[i] != LF
    ensures s == line + piece + rest
    ensures piece != [] && piece[|piece| - 1] == LF ==> LineEnd(s) == |line| + |piece| - 1
    ensures piece != [] && piece[|piece| - 1] != LF ==> |line| + |piece| <= LineEnd(s)
  {
    assert forall i :: 0 <= i < |piece| ==> s[|line| + i] == piece[i];
  }

  datatype ReadResult = Ok(out: bytes) | Err(fault: Fault)

  class ChunkedReader {
    const inner: BufReader
    var state: State

    constructor (inner: BufReader)
      ensures Valid() && this.inner == inner && state == Size
    {
      this.inner, this.state := inner, Size;
    }

    /** A chunk being read has bytes left. */
    predicate Valid()
      reads this
    {
      state != Data(0)
    }

    /** What is still to come, payload and outcome. */
    ghost function Meaning(): Decoded
      reads this, inner
    {
      Decode(state, inner.Rest(), Strict)
    }

    method ReadLine() returns (r: Answer)
      requires inner.capacity > 0
      modifies inner
      ensures StrictLine(old(inner.Rest())) == r.With(inner.Rest())
      ensures r.Line? ==> |inner.Rest()| < |old(inner.Rest())|
      ensures |inner.Rest()| <= |old(inner.Rest())|
    {
      ghost var s := inner.Rest();
      var line := inner.ReadUntil(MAX_SIZE_LINE + 2);
      var n := |line|;
      if n == 0 {
        return Nothing;
      }
      if line[n - 1] != LF {
        return if n > MAX_SIZE_LINE then Wrong(InvalidData) else Wrong(UnexpectedEof);
      }
      assert s[n - 1] == line[n - 1];
      assert n - 1 == LineEnd(s) && s[..n - 1] == line[..n - 1];
      line := line[..n - 1];
      if line != [] && line[|line| - 1] == CR {
        line := line[..|line| - 1];
      }
      return Line(line);
    }

    /** Skip the trailers; a fault if they cannot be read. */
    method SkipTrailers() returns (fault: Option<Fault>)
      requires inner.capacity > 0
      modifies inner
      ensures Decode(Trailers, old(inner.Rest()), Strict)
           == if fault.Some? then Fail(fault.value) else CLEAN
      ensures |inner.Rest()| <= |old(inner.Rest())|
    {
      ghost var s := inner.Rest();
      while true
        invariant |inner.Rest()| <= |s|
        invariant Decode(Trailers, s, Strict) == Decode(Trailers, inner.Rest(), Strict)
        decreases |inner.Rest()|
      {
        var r := ReadLine();
        match r
        case Nothing => return None;
        case Wrong(f) => return Some(f);
        case Line(text) =>
          if text == [] {
            return None;
          }
      }
    }

    /** Read into a caller's buffer of `size` bytes. Whatever the source's
    short reads and whatever `size` is, the bytes returned are the front of
    what the stream means and the rest of its meaning stays to be read. */
    method Read(size: nat) returns (r: ReadResult)
      requires Valid() && inner.capacity > 0
      modifies this, inner
      ensures Valid()
      ensures size == 0 ==> r == Ok([]) && state == old(state) && inner.Rest() == old(inner.Rest())
      ensures r.Ok? ==> |r.out| <= size && old(Meaning()) == Meaning().After(r.out)
      ensures r.Err? ==> old(Meaning()) == Fail(r.fault)
      ensures size > 0 && r == Ok([]) ==> state == Done
      ensures old(state) == Done ==> r == Ok([]) && state == Done && inner.Rest() == old(inner.Rest())
      ensures r.Ok? ==> |inner.Rest()| + |r.out| <= |old(inner.Rest())|
    {
      if size == 0 {
        return Ok([]);
      }
      while true
        invariant Valid() && Meaning() == old(Meaning())
        invariant |inner.Rest()| <= |old(inner.Rest())|
        invariant old(state) == Done ==> state == Done && inner.Rest() == old(inner.Rest())
        decreases |inner.Rest()|, state.Rank()
      {
        match state
        case Done =>
          return Ok([]);
        case Trailers =>
          var fault := SkipTrailers();
          if fault.Some? {
            return Err(fault.value);
          }
          state := Done;
        case Size =>
          var r := ReadLine();
          match r {
            case Nothing =>
              state := Done;
              return Ok([]);
            case Wrong(f) => return Err(f);
            case Line(text) =>
              match ParseSize(text)
              case None => return Err(InvalidData);
              case Some(0) =>
                var fault := SkipTrailers();
                if fault.Some? {
                  return Err(fault.value);
                }
                state := Done;
              case Some(n) => state := Data(n);
          }
        case Data(left) =>
          var got := inner.Read(Min(size, left));
          var n := |got|;
          if n == 0 {
            return Err(UnexpectedEof);
          }
          DataStep(left, got, inner.Rest(), Strict);
          state := if left - n == 0 then DataEnd else Data(left - n);
          return Ok(got);
        case DataEnd =>
          var r := ReadLine();
          match r {
            case Line(text) =>
              if text != [] {
                return Err(InvalidData);
              }
              state := Size;
            case Wrong(f) => return Err(f);
            case Nothing => return Err(UnexpectedEof);
          }
      }
    }
  }

  /** Read a stream to its end or first error, with caller buffers of the
  given sizes (32 bytes once they run out). The result is a function of the
  raw stream alone. */
  method ReadToEnd(raw: bytes, capacity: nat, script: seq<nat>, sizes: seq<nat>) returns (d: Decoded)
    requires capacity > 0
    requires forall i :: 0 <= i < |sizes| ==> sizes[i] > 0
    ensures d == Decode(Size, raw, Strict)
  {
    var inner := new BufReader(capacity, raw, script);
    var reader := new ChunkedReader(inner);
    var out := [];
    var sizes := sizes;
    while true
      invariant fresh(reader) && fresh(reader.inner)
      invariant reader.Valid() && reader.inner.capacity > 0
      invariant forall i :: 0 <= i < |sizes| ==> sizes[i] > 0
      invariant Decode(Size, raw, Strict) == reader.Meaning().After(out)
      decreases |reader.inner.Rest()|
    {
      var size := 32;
      if sizes != [] {
        size, sizes := sizes[0], sizes[1..];
      }
      ghost var before := reader.Meaning();
      var r := reader.Read(size);
      if r.Err? {
        return Decoded(out, Failed(r.fault));
      } else if r.out == [] {
        assert CLEAN.After([]) == CLEAN;
        return Decoded(out, Clean);
      }
      AfterTwice(reader.Meaning(), out, r.out);
      out := out + r.out;
    }
  }
}
