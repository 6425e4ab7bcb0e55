/** The two decoders side by side. */
module ChunkedAgreement {
  import opened Bytes
  import opened ChunkedSpec
  import opened ChunkedGrammar
  import Blocking = BlockingDecoder
  import Async = AsyncDecoder

  /** Both decoders on one stream, each with its own splits, pending polls,
  buffer and caller buffers; `cut` bytes were buffered before the async body
  began. They agree on every stream that is agreeable for the async one's
  capacity; on any other they differ when the source answers to plan. */
  method Compare(raw: bytes, cut: nat, capacity: nat, asyncCapacity: nat, splits: seq<nat>, polls: seq<Async.Poll>,
                 sizes: seq<nat>, asyncSizes: seq<nat>)
    returns (blocking: Decoded, polled: Decoded)
    requires cut <= |raw| && cut <= asyncCapacity && 0 < capacity && 0 < asyncCapacity
    requires forall i :: 0 <= i < |sizes| ==> sizes[i] > 0
    requires forall i :: 0 <= i < |asyncSizes| ==> asyncSizes[i] > 0
    ensures blocking == Decode(Size, raw, Strict)
    ensures Agreeable(Size, raw, asyncCapacity) ==> polled == blocking
    ensures cut == 0 && polls == Async.Plan(Size, raw, asyncCapacity) ==>
      (polled == blocking <==> Agreeable(Size, raw, asyncCapacity))
  {
    hide Decode, Agreeable, Async.Plan;
    assert raw[..cut] + raw[cut..] == raw;
    assert cut == 0 ==> raw[..cut] == [] && raw[cut..] == raw;
    blocking := Blocking.ReadToEnd(raw, capacity, splits, sizes);
    polled := Async.ReadToEnd(asyncCapacity, true, None, raw[..cut], raw[cut..], polls, asyncSizes);
    AgreeableExactly(Size, raw, asyncCapacity);
  }

  /** What the blocking decoder accepts, the async one decodes alike under
  every split: the streams the grammar prints are all agreeable. */
  lemma PrintedStreamsAgree(chunks: seq<Chunk>, ending: Ending, capacity: nat)
    requires AreChunks(chunks) && ending.Valid() && 0 < capacity
    ensures var raw := PrintChunks(chunks) + ending.Print();
      && Agreeable(Size, raw, capacity)
      && Decode(Size, raw, Lenient(capacity)) == Decode(Size, raw, Strict) == Decoded(Payload(chunks), Clean)
  {
    var raw := PrintChunks(chunks) + ending.Print();
    DecodePrinted(chunks, ending);
    CleanIsAgreeable(Size, raw, capacity);
    AgreeableExactly(Size, raw, capacity);
  }

  /** A stream the decoders disagree on under some split only because the async
  one's buffer is large enough: a size line of an extension of any length
  that ends the body. With a smaller buffer both refuse it. */
  lemma LongExtension(line: bytes, capacity: nat)
    requires 0 < capacity && MAX_SIZE_LINE + 2 <= LineEnd(line) == |line| - 1
    requires ParseSize(Text(line, |line| - 1)) == Some(0)
    ensures var raw := line + [LF];
      && Decode(Size, raw, Strict) == Fail(InvalidData)
      && (Agreeable(Size, raw, capacity) <==> MAX_SIZE_LINE + 2 + capacity <= |line|)
  {
    var raw, e := line + [LF], |line| - 1;
    hide ParseSize;
    LineEndIs(raw, e);
    assert Text(raw, e) == Text(line, e) by {
      assert raw[..e] == line[..e];
      assert e > 0 ==> raw[..e - 1] == line[..e - 1];
    }
    assert raw[e + 1..] == [LF];
    LineEndIs([LF], 0);
    assert Text([LF], 0) == [];
  }
}
