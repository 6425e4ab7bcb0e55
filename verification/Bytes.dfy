/** Bytes, options and the substring search that the other modules share. */
module Bytes {

  type byte = b: int | 0 <= b < 256
  type bytes = seq<byte>

  const LF: byte := 10
  const CR: byte := 13

  datatype Option<+T> = None | Some(value: T) {
    predicate IsFailure() {
      None?
    }

    function PropagateFailure<U>(): Option<U>
      requires None?
    {
      None
    }

    function Extract(): T
      requires Some?
    {
      value
    }
  }

  function Min(a: int, b: int): int {
    if a < b then a else b
  }

  function Max(a: int, b: int): int {
    if a < b then b else a
  }

  /** The bytes of an ASCII literal. */
  function Ascii(s: string): (b: bytes)
    ensures |b| == |s|
    ensures forall i :: 0 <= i < |s| ==> b[i] == s[i] as int % 256
  {
    seq(|s|, i requires 0 <= i < |s| => s[i] as int % 256)
  }

  /** `s` without the prefix, if it has it. */
  function Strip(s: bytes, prefix: bytes): Option<bytes> {
    if prefix <= s then Some(s[|prefix|..]) else None
  }

  lemma StripPrefix(prefix: bytes, rest: bytes)
    ensures Strip(prefix + rest, prefix) == Some(rest)
  {
    assert (prefix + rest)[|prefix|..] == rest;
  }

  function Flatten(parts: seq<bytes>): bytes {
    if parts == [] then [] else parts[0] + Flatten(parts[1..])
  }

  lemma {:induction false} FlattenConcat(a: seq<bytes>, b: seq<bytes>)
    ensures Flatten(a + b) == Flatten(a) + Flatten(b)
  {
    if a == [] {
      assert a + b == b;
    } else {
      assert (a + b)[1..] == a[1..] + b;
      FlattenConcat(a[1..], b);
      assert a[0] + (Flatten(a[1..]) + Flatten(b)) == Flatten(a) + Flatten(b);
    }
  }

  lemma Regroup<T>(a: seq<T>, b: seq<T>, c: seq<T>)
    ensures (a + b) + c == a + (b + c)
  {
  }

  lemma SliceAfter(a: bytes, b: bytes, i: nat, n: nat)
    requires i + n <= |b|
    ensures (a + b)[|a| + i..|a| + i + n] == b[i..i + n]
  {
  }

  predicate OccursAt(hay: bytes, needle: bytes, i: int) {
    0 <= i && i + |needle| <= |hay| && hay[i..i + |needle|] == needle
  }

  ghost predicate Occurs(hay: bytes, needle: bytes) {
    exists i :: OccursAt(hay, needle, i)
  }

  /** `at` is the first place where `needle` occurs in `hay`. */
  ghost predicate FirstAt(hay: bytes, needle: bytes, at: int) {
    OccursAt(hay, needle, at) && forall j :: 0 <= j < at ==> !OccursAt(hay, needle, j)
  }

  /** Where `needle` first occurs in `hay`, from `i` on. */
  function Find(hay: bytes, needle: bytes, i: nat): (at: Option<nat>)
    ensures at.Some? ==> i <= at.value && OccursAt(hay, needle, at.value)
    ensures forall j :: i <= j < (if at.Some? then at.value else |hay| + 1) ==> !OccursAt(hay, needle, j)
    decreases |hay| - i
  {
    if i + |needle| > |hay| then None
    else if OccursAt(hay, needle, i) then Some(i)
    else Find(hay, needle, i + 1)
  }

  lemma FindIs(hay: bytes, needle: bytes, at: nat)
    requires FirstAt(hay, needle, at)
    ensures Find(hay, needle, 0) == Some(at)
  {
  }

  /** A needle whose first byte occurs in it once cannot begin inside what
  comes before it. */
  lemma NoStraddle(before: bytes, needle: bytes, rest: bytes)
    requires needle != [] && !Occurs(before, needle)
    requires forall i :: 1 <= i < |needle| ==> needle[i] != needle[0]
    ensures Find(before + (needle + rest), needle, 0) == Some(|before|)
  {
    var hay := before + (needle + rest);
    assert hay[|before|..|before| + |needle|] == needle;
    forall j | 0 <= j < |before|
      ensures !OccursAt(hay, needle, j)
    {
      if j + |needle| <= |before| {
        assert before[j..j + |needle|] == hay[j..j + |needle|];
        assert !OccursAt(before, needle, j);
      } else if j + |needle| <= |hay| {
        assert hay[j..j + |needle|][|before| - j] == hay[|before|] == needle[0];
      }
    }
    FindIs(hay, needle, |before|);
  }

  /** The windows-and-position search, as a loop. */
  method Search(hay: bytes, needle: bytes) returns (at: Option<nat>)
    ensures at == Find(hay, needle, 0)
    ensures at.Some? ==> FirstAt(hay, needle, at.value)
    ensures at.None? <==> !Occurs(hay, needle)
  {
    var i := 0;
    while i + |needle| <= |hay|
      invariant Find(hay, needle, 0) == Find(hay, needle, i)
    {
      if hay[i..i + |needle|] == needle {
        return Some(i);
      }
      i := i + 1;
    }
    return None;
  }
}
