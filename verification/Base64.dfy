/** The base64 codecs of src/nets/debug.rs and src/auth.rs (sections 4 and 5 of
RFC 4648), in the bit arithmetic each of them uses. Text is ASCII bytes. */
module Base64 {
  import opened Bytes

  type octet = bv8
  type text = seq<octet>

  const PAD: octet := 61

  // ----- the alphabets

  /** The letter of a six-bit value, in the standard or the URL alphabet. */
  function Letter(v: bv32, url: bool): octet
    requires v < 64
  {
    if v < 26 then 65 + v as octet
    else if v < 52 then 97 + (v - 26) as octet
    else if v < 62 then 48 + (v - 52) as octet
    else if v == 62 then (if url then 45 else 43)
    else (if url then 95 else 47)
  }

  function Sextet(c: octet, url: bool): (v: Option<bv32>)
    ensures v.Some? ==> v.value < 64
  {
    if 65 <= c <= 90 then Some((c - 65) as bv32)
    else if 97 <= c <= 122 then Some((c - 97) as bv32 + 26)
    else if 48 <= c <= 57 then Some((c - 48) as bv32 + 52)
    else if c == (if url then 45 else 43) then Some(62)
    else if c == (if url then 95 else 47) then Some(63)
    else None
  }

  predicate IsSpace(c: octet) {
    c in {32, 9, 10, 12, 13}
  }

  /** What counts as white space: blank, tab, line feed, form feed, return. */
  lemma SpacesAre(c: octet)
    ensures IsSpace(c) <==> c as char in {' ', '\t', '\n', '\U{C}', '\r'}
  {
  }

  lemma LetterReads(v: bv32, url: bool)
    requires v < 64
    ensures Sextet(Letter(v, url), url) == Some(v) && Letter(v, url) != PAD && !IsSpace(Letter(v, url))
  {
  }

  /** A character has a value only as that value's letter. */
  lemma SextetExactly(c: octet, v: bv32, url: bool)
    ensures Sextet(c, url) == Some(v) <==> v < 64 && Letter(v, url) == c
  {
    if v < 64 {
      LetterReads(v, url);
    }
  }

  // ----- words of four six-bit values, or three octets

  /** The octets of a group in one word, missing ones zero. */
  function Word(a: octet, b: octet, c: octet): bv32 {
    ((a as bv32) << 16) | ((b as bv32) << 8) | (c as bv32)
  }

  /** Six-bit value `i` of a word. */
  function Part(n: bv32, i: nat): (v: bv32)
    ensures v < 64
  {
    match i
    case 0 => (n >> 18) & 0x3F
    case 1 => (n >> 12) & 0x3F
    case 2 => (n >> 6) & 0x3F
    case _ => n & 0x3F
  }

  /** Octet `i` of a word. */
  function OctetOf(n: bv32, i: nat): octet {
    match i
    case 0 => ((n >> 16) & 0xFF) as octet
    case 1 => ((n >> 8) & 0xFF) as octet
    case _ => (n & 0xFF) as octet
  }

  /** The standard decoder's step: a value ORed in at the place of letter `i`. */
  function Join(n: bv32, v: bv32, i: nat): bv32 {
    match i
    case 0 => n | (v << 18)
    case 1 => n | (v << 12)
    case 2 => n | (v << 6)
    case _ => n | v
  }

  /** The URL decoder's step: a value shifted in from the right. */
  function ShiftIn(acc: bv32, v: bv32): bv32 {
    (acc << 6) | v
  }

  /** The URL decoder's last shift, by 24 bits less six a letter. */
  function Align(acc: bv32, count: nat): bv32 {
    match count
    case 2 => acc << 12
    case 3 => acc << 6
    case _ => acc
  }

  lemma TwoAlign(a: bv32, b: bv32)
    ensures Join(Join(0, a, 0), b, 1) == Align(ShiftIn(ShiftIn(0, a), b), 2)
  {
  }

  lemma ThreeAlign(a: bv32, b: bv32, c: bv32)
    ensures Join(Join(Join(0, a, 0), b, 1), c, 2) == Align(ShiftIn(ShiftIn(ShiftIn(0, a), b), c), 3)
  {
  }

  lemma FourAlign(a: bv32, b: bv32, c: bv32, d: bv32)
    ensures Join(Join(Join(Join(0, a, 0), b, 1), c, 2), d, 3)
         == Align(ShiftIn(ShiftIn(ShiftIn(ShiftIn(0, a), b), c), d), 4)
  {
    ThreeAlign(a, b, c);
    var n, acc := Join(Join(Join(0, a, 0), b, 1), c, 2), ShiftIn(ShiftIn(ShiftIn(0, a), b), c);
    assert n == Align(acc, 3);
    hide ShiftIn, Join, Align;
    LastJoin(n, d);
    LastShift(acc, d);
  }

  lemma LastJoin(n: bv32, d: bv32)
    ensures Join(n, d, 3) == n | d
  {
  }

  lemma LastShift(acc: bv32, d: bv32)
    ensures Align(ShiftIn(acc, d), 4) == Align(acc, 3) | d
  {
  }

  /** A word is put together again from its six-bit values, and an octet that
  was missing leaves the values that are not written zero. */
  lemma PartsJoin(a: octet, b: octet, c: octet)
    ensures var n := Word(a, b, c);
      && Join(Join(Join(Join(0, Part(n, 0), 0), Part(n, 1), 1), Part(n, 2), 2), Part(n, 3), 3) == n
      && (c == 0 ==> Join(Join(Join(0, Part(n, 0), 0), Part(n, 1), 1), Part(n, 2), 2) == n)
      && (b == 0 && c == 0 ==> Join(Join(0, Part(n, 0), 0), Part(n, 1), 1) == n)
  {
  }

  lemma WordOctets(a: octet, b: octet, c: octet)
    ensures var n := Word(a, b, c); OctetOf(n, 0) == a && OctetOf(n, 1) == b && OctetOf(n, 2) == c
  {
  }

  // ----- groups

  function GroupWord(group: text): bv32
    requires 1 <= |group| <= 3
  {
    Word(group[0], if |group| > 1 then group[1] else 0, if |group| > 2 then group[2] else 0)
  }

  /** The letters of one group: one more than its octets. */
  function EncodeGroup(group: text, url: bool): (t: text)
    requires 1 <= |group| <= 3
    ensures |t| == |group| + 1
  {
    var n := GroupWord(group);
    seq(|group| + 1, i requires 0 <= i <= |group| => Letter(Part(n, i), url))
  }

  /** The octets in a word of `count` six-bit values. */
  function OctetsOf(n: bv32, count: nat): text
    requires 2 <= count
  {
    seq(count - 1, i requires 0 <= i < count - 1 => OctetOf(n, i))
  }

  function Sextets(letters: text, url: bool): Option<seq<bv32>> {
    if letters == [] then Some([])
    else
      var rest :- Sextets(letters[..|letters| - 1], url);
      var v :- Sextet(letters[|letters| - 1], url);
      Some(rest + [v])
  }

  function Joined(vs: seq<bv32>): bv32 {
    if vs == [] then 0 else Join(Joined(vs[..|vs| - 1]), vs[|vs| - 1], |vs| - 1)
  }

  function Accumulated(vs: seq<bv32>): bv32 {
    if vs == [] then 0 else ShiftIn(Accumulated(vs[..|vs| - 1]), vs[|vs| - 1])
  }

  lemma Unrolled(vs: seq<bv32>)
    requires 2 <= |vs| <= 4
    ensures |vs| == 2 ==> Joined(vs) == Join(Join(0, vs[0], 0), vs[1], 1)
    ensures |vs| == 3 ==> Joined(vs) == Join(Join(Join(0, vs[0], 0), vs[1], 1), vs[2], 2)
    ensures |vs| == 4 ==> Joined(vs) == Join(Join(Join(Join(0, vs[0], 0), vs[1], 1), vs[2], 2), vs[3], 3)
    ensures |vs| == 2 ==> Accumulated(vs) == ShiftIn(ShiftIn(0, vs[0]), vs[1])
    ensures |vs| == 3 ==> Accumulated(vs) == ShiftIn(ShiftIn(ShiftIn(0, vs[0]), vs[1]), vs[2])
    ensures |vs| == 4 ==> Accumulated(vs) == ShiftIn(ShiftIn(ShiftIn(ShiftIn(0, vs[0]), vs[1]), vs[2]), vs[3])
  {
    hide Join, ShiftIn;
    var one, two, three := vs[..1], vs[..2], if |vs| > 2 then vs[..3] else vs;
    assert one[..0] == [] && two[..1] == one && (|vs| > 2 ==> three[..2] == two);
    assert Joined(one) == Join(0, vs[0], 0) && Accumulated(one) == ShiftIn(0, vs[0]);
    assert Joined(two) == Join(Joined(one), vs[1], 1) && Accumulated(two) == ShiftIn(Accumulated(one), vs[1]);
    assert vs[..|vs|] == vs;
    if |vs| > 2 {
      assert Joined(three) == Join(Joined(two), vs[2], 2);
      assert Accumulated(three) == ShiftIn(Accumulated(two), vs[2]);
    }
  }

  /** The two bit arithmetics build one word. */
  lemma JoinedIsAligned(vs: seq<bv32>)
    requires 2 <= |vs| <= 4
    ensures Joined(vs) == Align(Accumulated(vs), |vs|)
  {
    hide Join, ShiftIn, Align;
    Unrolled(vs);
    if |vs| == 2 {
      TwoAlign(vs[0], vs[1]);
    } else if |vs| == 3 {
      ThreeAlign(vs[0], vs[1], vs[2]);
    } else {
      FourAlign(vs[0], vs[1], vs[2], vs[3]);
    }
  }

  // ----- the encoder

  /** The letters of an octet string, without padding. */
  function Letters(input: text, url: bool): text
    decreases |input|
  {
    if input == [] then []
    else EncodeGroup(input[..Min(3, |input|)], url) + Letters(input[Min(3, |input|)..], url)
  }

  function Padding(n: nat): text {
    if n % 3 == 1 then [PAD, PAD] else if n % 3 == 2 then [PAD] else []
  }

  /** Encode with the standard alphabet and padding. */
  method Encode(input: text) returns (out: text)
    ensures out == Letters(input, false) + Padding(|input|)
    ensures |out| == 4 * ((|input| + 2) / 3)
  {
    hide Letter, Part, Word, EncodeGroup, Letters, Padding, Remaining;
    RemainingEnds(input);
    out := [];
    var k := 0;
    assert input[0..] == input && out + Remaining(input) == Remaining(input);
    while k < |input|
      invariant k <= |input| && (k == |input| || k % 3 == 0)
      invariant out + Remaining(input[k..]) == Remaining(input)
    {
      var group := input[k..][..Min(3, |input| - k)];
      var written := WriteGroup(group);
      assert input[k..][|group|..] == input[k + |group|..];
      RemainingStep(input[k..], written);
      Regroup(out, written, Remaining(input[k + |group|..]));
      out := out + written;
      k := k + |group|;
    }
    assert input[k..] == [];
  }

  lemma RemainingEnds(input: text)
    ensures Remaining(input) == Letters(input, false) + Padding(|input|) && Remaining([]) == []
    ensures |Remaining(input)| == 4 * ((|input| + 2) / 3)
  {
    LettersLength(input);
  }

  lemma {:induction false} LettersLength(input: text)
    ensures |Letters(input, false)| + |Padding(|input|)| == 4 * ((|input| + 2) / 3)
    decreases |input|
  {
    if |input| > 3 {
      LettersLength(input[3..]);
      hide EncodeGroup;
    } else {
      assert input != [] ==> input[|input|..] == [];
    }
  }

  /** What encoding the rest of an input adds. */
  function Remaining(rest: text): text {
    Letters(rest, false) + Padding(|rest|)
  }

  lemma RemainingStep(rest: text, written: text)
    requires rest != []
    requires var g := rest[..Min(3, |rest|)]; written == EncodeGroup(g, false) + Padding(|g|)
    ensures Remaining(rest) == written + Remaining(rest[Min(3, |rest|)..])
  {
    hide EncodeGroup;
    var n := Min(3, |rest|);
    var g, more := EncodeGroup(rest[..n], false), rest[n..];
    if n < 3 || |rest| == 3 {
      assert more == [];
      assert Letters(rest, false) == g + [];
      assert written + Remaining(more) == g + Padding(n);
    } else {
      assert Padding(n) == [] && |rest| % 3 == |more| % 3;
      Regroup(g, Letters(more, false), Padding(|more|));
    }
  }

  /** The four characters of one group. */
  method WriteGroup(group: text) returns (out: text)
    requires 1 <= |group| <= 3
    ensures out == EncodeGroup(group, false) + Padding(|group|)
  {
    hide Letter, Part, Word;
    var n := GroupWord(group);
    out := [Letter(Part(n, 0), false), Letter(Part(n, 1), false)];
    out := out + [if |group| > 1 then Letter(Part(n, 2), false) else PAD];
    out := out + [if |group| > 2 then Letter(Part(n, 3), false) else PAD];
  }

  // ----- the decoders

  /** The octets of a letter string, group by group. */
  function Octets(letters: text, url: bool): Option<text>
    requires |letters| % 4 != 1
    decreases |letters|
  {
    if letters == [] then Some([])
    else
      var n := Min(4, |letters|);
      var vs :- Sextets(letters[..n], url);
      var rest :- Octets(letters[n..], url);
      Some(OctetsOf(Joined(vs), n) + rest)
  }

  function DecodeLetters(letters: text, url: bool): Option<text> {
    if |letters| % 4 == 1 then None else Octets(letters, url)
  }

  function NoSpaces(input: text): text {
    if input == [] then []
    else NoSpaces(input[..|input| - 1]) + if IsSpace(input[|input| - 1]) then [] else [input[|input| - 1]]
  }

  /** Length of the text before its first padding character. */
  function PadStart(digits: text): (p: nat)
    ensures p <= |digits| && (p < |digits| ==> digits[p] == PAD)
    ensures forall i :: 0 <= i < p ==> digits[i] != PAD
  {
    if digits == [] || digits[0] == PAD then 0 else 1 + PadStart(digits[1..])
  }

  predicate AllPad(s: text) {
    forall i :: 0 <= i < |s| ==> s[i] == 61
  }

  /** The letters of padded text: at most two padding characters, at its end. */
  function Unpad(digits: text): Option<text> {
    var p := PadStart(digits);
    if p == |digits| then Some(digits)
    else if AllPad(digits[p..]) && |digits| - p <= 2 then Some(digits[..p])
    else None
  }

  /** What the standard decoder reads from `input`. */
  function Decoded(input: text): Option<text> {
    var letters :- Unpad(NoSpaces(input));
    DecodeLetters(letters, false)
  }

  function TrimPad(s: text): text
    decreases |s|
  {
    if s != [] && s[|s| - 1] == PAD then TrimPad(s[..|s| - 1]) else s
  }

  /** What the URL decoder reads from `s`. */
  function UrlDecoded(s: text): Option<text> {
    DecodeLetters(TrimPad(s), true)
  }

  lemma SextetsOneMore(letters: text, url: bool, i: nat)
    requires i < |letters|
    ensures Sextets(letters[..i + 1], url)
      == match (Sextets(letters[..i], url), Sextet(letters[i], url))
         case (Some(vs), Some(v)) => Some(vs + [v])
         case _ => None
  {
    hide Sextet;
    assert letters[..i + 1][..i] == letters[..i];
  }

  lemma {:induction false} SextetsFail(letters: text, url: bool, i: nat)
    requires i <= |letters| && Sextets(letters[..i], url).None?
    ensures Sextets(letters, url).None?
    decreases |letters| - i
  {
    hide Sextet;
    if i == |letters| {
      assert letters[..i] == letters;
    } else {
      SextetsOneMore(letters, url, i);
      SextetsFail(letters, url, i + 1);
    }
  }

  /** One group of the standard decoder: shift each value to its place and OR. */
  method DecodeGroup(chunk: text) returns (r: Option<text>)
    requires 2 <= |chunk| <= 4
    ensures r == match Sextets(chunk, false)
                 case None => None
                 case Some(vs) => Some(OctetsOf(Joined(vs), |chunk|))
  {
    hide Sextet, Join, OctetOf;
    var n: bv32 := 0;
    ghost var vs := [];
    for i := 0 to |chunk|
      invariant Sextets(chunk[..i], false) == Some(vs) && |vs| == i && n == Joined(vs)
    {
      SextetsOneMore(chunk, false, i);
      var v := Sextet(chunk[i], false);
      if v.None? {
        SextetsFail(chunk, false, i + 1);
        return None;
      }
      n := Join(n, v.value, i);
      assert (vs + [v.value])[..i] == vs;
      vs := vs + [v.value];
    }
    assert chunk[..|chunk|] == chunk;
    return Some(OctetsOf(n, |chunk|));
  }

  /** One group of the URL decoder: shift the values in, then align. */
  method UrlDecodeGroup(chunk: text) returns (r: Option<text>)
    requires 2 <= |chunk| <= 4
    ensures r == match Sextets(chunk, true)
                 case None => None
                 case Some(vs) => Some(OctetsOf(Joined(vs), |chunk|))
  {
    hide Sextet, ShiftIn, Align, OctetOf;
    var acc: bv32 := 0;
    ghost var vs := [];
    for i := 0 to |chunk|
      invariant Sextets(chunk[..i], true) == Some(vs) && |vs| == i && acc == Accumulated(vs)
    {
      SextetsOneMore(chunk, true, i);
      var v := Sextet(chunk[i], true);
      if v.None? {
        SextetsFail(chunk, true, i + 1);
        return None;
      }
      acc := ShiftIn(acc, v.value);
      assert (vs + [v.value])[..i] == vs;
      vs := vs + [v.value];
    }
    assert chunk[..|chunk|] == chunk;
    JoinedIsAligned(vs);
    return Some(OctetsOf(Align(acc, |chunk|), |chunk|));
  }

  /** Decode letters group by group, in either alphabet and its arithmetic. */
  method DecodeGroups(letters: text, url: bool) returns (r: Option<text>)
    requires |letters| % 4 != 1
    ensures r == Octets(letters, url)
  {
    hide Sextets, Joined, OctetsOf;
    var out := [];
    var k := 0;
    assert letters[0..] == letters;
    EmptyPrefix(Octets(letters, url));
    while k < |letters|
      invariant k <= |letters| && (k == |letters| || k % 4 == 0)
      invariant Octets(letters, url) == Prefixed(out, Octets(letters[k..], url))
    {
      var n := Min(4, |letters| - k);
      var chunk := letters[k..][..n];
      var group;
      if url {
        group := UrlDecodeGroup(chunk);
      } else {
        group := DecodeGroup(chunk);
      }
      if group.None? {
        return None;
      }
      assert letters[k..][n..] == letters[k + n..];
      PrefixedTwice(out, group.value, Octets(letters[k + n..], url));
      out := out + group.value;
      k := k + n;
    }
    assert out + [] == out;
    return Some(out);
  }

  function Prefixed(out: text, rest: Option<text>): Option<text> {
    if rest.Some? then Some(out + rest.value) else None
  }

  lemma EmptyPrefix(rest: Option<text>)
    ensures Prefixed([], rest) == rest
  {
    if rest.Some? {
      assert [] + rest.value == rest.value;
    }
  }

  lemma PrefixedTwice(a: text, b: text, rest: Option<text>)
    ensures Prefixed(a, Prefixed(b, rest)) == Prefixed(a + b, rest)
  {
    if rest.Some? {
      Regroup(a, b, rest.value);
    }
  }

  /** The standard decoder: padding optional, white space ignored. */
  method Decode(input: text) returns (r: Option<text>)
    ensures r == Decoded(input)
  {
    hide Octets, IsSpace;
    var digits := [];
    for i := 0 to |input|
      invariant digits == NoSpaces(input[..i])
    {
      assert input[..i + 1][..i] == input[..i];
      if !IsSpace(input[i]) {
        digits := digits + [input[i]];
      }
    }
    assert input[..|input|] == input;
    var pad := PadStart(digits);
    if pad < |digits| {
      if !(AllPad(digits[pad..]) && |digits| - pad <= 2) {
        return None;
      }
      digits := digits[..pad];
    }
    if |digits| % 4 == 1 {
      return None;
    }
    r := DecodeGroups(digits, false);
  }

  /** The URL decoder: any padding at the end is dropped. */
  method UrlDecode(input: text) returns (r: Option<text>)
    ensures r == UrlDecoded(input)
  {
    hide Octets;
    var s := input;
    while s != [] && s[|s| - 1] == PAD
      invariant TrimPad(s) == TrimPad(input)
      decreases |s|
    {
      s := s[..|s| - 1];
    }
    if |s| % 4 == 1 {
      return None;
    }
    r := DecodeGroups(s, true);
  }

  // ----- round trips

  predicate Plain(t: text) {
    forall i :: 0 <= i < |t| ==> t[i] != PAD && !IsSpace(t[i])
  }

  /** The values of one group's letters. */
  function Values(group: text): seq<bv32>
    requires 1 <= |group| <= 3
  {
    seq(|group| + 1, i requires 0 <= i <= |group| => Part(GroupWord(group), i))
  }

  lemma GroupPlain(group: text, url: bool)
    requires 1 <= |group| <= 3
    ensures Plain(EncodeGroup(group, url))
  {
    hide Letter, Sextet, GroupWord, IsSpace, Part;
    forall i | 0 <= i < |group| + 1
      ensures EncodeGroup(group, url)[i] != PAD && !IsSpace(EncodeGroup(group, url)[i])
    {
      LetterReads(Part(GroupWord(group), i), url);
    }
  }

  lemma {:induction false} GroupLetters(group: text, url: bool, k: nat)
    requires 1 <= |group| <= 3 && k <= |group| + 1
    ensures Sextets(EncodeGroup(group, url)[..k], url) == Some(Values(group)[..k])
  {
    hide Letter, Sextet, GroupWord, IsSpace, Part;
    if k > 0 {
      var v, t := Part(GroupWord(group), k - 1), EncodeGroup(group, url);
      LetterReads(v, url);
      GroupLetters(group, url, k - 1);
      SextetsOneMore(t, url, k - 1);
      assert Values(group)[..k] == Values(group)[..k - 1] + [v];
      assert t[..k] == t[..k - 1] + [Letter(v, url)];
    }
  }

  /** The word put together from a group's letters yields the group. */
  lemma GroupReads(group: text)
    requires 1 <= |group| <= 3
    ensures OctetsOf(Joined(Values(group)), |group| + 1) == group
  {
    hide Join, Part, Word, OctetOf;
    var b, c := if |group| > 1 then group[1] else 0, if |group| > 2 then group[2] else 0;
    Unrolled(Values(group));
    PartsJoin(group[0], b, c);
    WordOctets(group[0], b, c);
    assert Joined(Values(group)) == GroupWord(group);
  }

  /** Decoding letters inverts writing them, in either alphabet. */
  lemma {:induction false} LettersRead(x: text, url: bool)
    ensures |Letters(x, url)| % 4 != 1 && Octets(Letters(x, url), url) == Some(x)
    ensures Plain(Letters(x, url))
    decreases |x|
  {
    hide Sextets, Joined, OctetsOf, EncodeGroup, IsSpace, GroupWord;
    if x != [] {
      hide Octets;
      var n := Min(3, |x|);
      var group, more := x[..n], x[n..];
      var t := EncodeGroup(group, url);
      GroupLetters(group, url, |t|);
      GroupPlain(group, url);
      GroupReads(group);
      LettersRead(more, url);
      assert Letters(x, url) == t + Letters(more, url);
      assert t[..|t|] == t && Values(group)[..|t|] == Values(group);
      assert |t| < 4 ==> Letters(more, url) == [];
      OctetsStep(t, Letters(more, url), url, Values(group), more);
      assert group + more == x;
    }
  }

  lemma OctetsStep(t: text, letters: text, url: bool, vs: seq<bv32>, more: text)
    requires 2 <= |t| <= 4 && (|t| < 4 ==> letters == [])
    requires Sextets(t, url) == Some(vs)
    requires |letters| % 4 != 1 && Octets(letters, url) == Some(more)
    ensures |t + letters| % 4 != 1
    ensures Octets(t + letters, url) == Some(OctetsOf(Joined(vs), |t|) + more)
  {
    hide Sextets, Joined, OctetsOf;
    var s := t + letters;
    assert s[..|t|] == t && s[|t|..] == letters;
    assert |t| == Min(4, |s|);
  }

  lemma {:induction false} PadStartIs(letters: text, pad: text)
    requires Plain(letters) && AllPad(pad)
    ensures PadStart(letters + pad) == |letters|
  {
    if letters == [] {
      assert letters + pad == pad;
    } else {
      assert (letters + pad)[1..] == letters[1..] + pad;
      PadStartIs(letters[1..], pad);
    }
  }

  lemma {:induction false} NoSpacesConcat(a: text, b: text)
    ensures NoSpaces(a + b) == NoSpaces(a) + NoSpaces(b)
  {
    if b == [] {
      assert a + b == a;
    } else {
      var init, last := b[..|b| - 1], b[|b| - 1];
      assert (a + b)[..|a + b| - 1] == a + init;
      NoSpacesConcat(a, init);
      Regroup(NoSpaces(a), NoSpaces(init), if IsSpace(last) then [] else [last]);
    }
  }

  /** White space counts for nothing, wherever it is. */
  lemma SpaceDropped(before: text, c: octet, after: text)
    requires c in {32, 9, 10, 12, 13}
    ensures Decoded(before + ([c] + after)) == Decoded(before + after)
  {
    assert [c][..0] == [];
    NoSpacesConcat([c], after);
    NoSpacesConcat(before, [c] + after);
    NoSpacesConcat(before, after);
    assert NoSpaces([c]) == [] && [] + NoSpaces(after) == NoSpaces(after);
    hide Octets, NoSpaces, PadStart;
  }

  lemma {:induction false} SextetsExactly(letters: text, url: bool)
    ensures Sextets(letters, url).Some? <==> forall i :: 0 <= i < |letters| ==> Sextet(letters[i], url).Some?
  {
    hide Sextet;
    if letters != [] {
      var init := letters[..|letters| - 1];
      SextetsExactly(init, url);
      assert forall i :: 0 <= i < |init| ==> init[i] == letters[i];
    }
  }

  /** Main result: letters decode if and only if each is in the alphabet and
  there is not one left over. */
  lemma {:induction false} LettersDecodeExactly(letters: text, url: bool)
    ensures DecodeLetters(letters, url).Some? <==>
      |letters| % 4 != 1 && forall i :: 0 <= i < |letters| ==> Sextet(letters[i], url).Some?
    decreases |letters|
  {
    hide Sextet, Sextets, Joined, OctetsOf;
    if |letters| % 4 != 1 && letters != [] {
      var n := Min(4, |letters|);
      var first, more := letters[..n], letters[n..];
      SextetsExactly(first, url);
      LettersDecodeExactly(more, url);
      assert forall i :: 0 <= i < |first| ==> first[i] == letters[i];
      assert forall i :: 0 <= i < |more| ==> more[i] == letters[n + i];
      assert forall i :: n <= i < |letters| ==> letters[i] == more[i - n];
    }
  }

  /** Letters of the standard or the URL alphabet, in a number that decodes. */
  predicate AreLetters(letters: text, url: bool) {
    |letters| % 4 != 1 && forall i :: 0 <= i < |letters| ==> Sextet(letters[i], url).Some?
  }

  lemma LettersArePlain(letters: text, url: bool)
    requires AreLetters(letters, url)
    ensures Plain(letters)
  {
    forall i | 0 <= i < |letters|
      ensures letters[i] != PAD && !IsSpace(letters[i])
    {
      var v := Sextet(letters[i], url).value;
      SextetExactly(letters[i], v, url);
      LetterReads(v, url);
    }
  }

  /** Main result: the standard decoder accepts text if and only if, white space
  apart, it is letters and at most two padding characters at their end. */
  lemma DecodedExactly(t: text)
    ensures Decoded(t).Some? <==>
      exists letters, pad :: NoSpaces(t) == letters + pad && AreLetters(letters, false) && AllPad(pad) && |pad| <= 2
  {
    hide NoSpaces, Octets, PadStart, AreLetters, DecodeLetters;
    var digits := NoSpaces(t);
    if Decoded(t).Some? {
      var p := PadStart(digits);
      var letters, pad := digits[..p], digits[p..];
      LettersDecodeExactly(Unpad(digits).value, false);
      assert digits == letters + pad && letters == Unpad(digits).value;
      AcceptedLetters(letters, false);
    }
    forall letters, pad | digits == letters + pad && AreLetters(letters, false) && AllPad(pad) && |pad| <= 2
      ensures Decoded(t).Some?
    {
      LettersArePlain(letters, false);
      PadStartIs(letters, pad);
      assert digits[|letters|..] == pad && digits[..|letters|] == letters;
      assert pad == [] ==> digits == letters;
      LettersAccepted(letters, false);
    }
  }

  lemma AcceptedLetters(letters: text, url: bool)
    requires DecodeLetters(letters, url).Some?
    ensures AreLetters(letters, url)
  {
    LettersDecodeExactly(letters, url);
    hide DecodeLetters, Sextet;
  }

  lemma LettersAccepted(letters: text, url: bool)
    requires AreLetters(letters, url)
    ensures DecodeLetters(letters, url).Some?
  {
    LettersDecodeExactly(letters, url);
    hide DecodeLetters, Sextet;
  }

  /** Text that is an encoding once its white space is dropped, with up to two
  padding characters or none, decodes to what was encoded. */
  lemma StandardRoundTrip(t: text, x: text, pad: text)
    requires NoSpaces(t) == Letters(x, false) + pad && AllPad(pad) && |pad| <= 2
    ensures Decoded(t) == Some(x)
  {
    var letters := Letters(x, false);
    LettersRead(x, false);
    hide Octets, Letters, NoSpaces, PadStart;
    PadStartIs(letters, pad);
    var digits := letters + pad;
    assert digits[|letters|..] == pad && digits[..|letters|] == letters;
    assert pad == [] ==> digits == letters;
  }

  lemma {:induction false} TrimPadIs(letters: text, pad: text)
    requires Plain(letters) && AllPad(pad)
    ensures TrimPad(letters + pad) == letters
    decreases |pad|
  {
    if pad == [] {
      assert letters + pad == letters;
    } else {
      assert (letters + pad)[..|letters + pad| - 1] == letters + pad[..|pad| - 1];
      TrimPadIs(letters, pad[..|pad| - 1]);
    }
  }

  lemma {:induction false} TrimmedPad(s: text) returns (pad: text)
    ensures s == TrimPad(s) + pad && AllPad(pad)
    decreases |s|
  {
    if s != [] && s[|s| - 1] == PAD {
      var more := TrimmedPad(s[..|s| - 1]);
      pad := more + [PAD];
      Regroup(TrimPad(s), more, [PAD]);
      assert s == s[..|s| - 1] + [PAD];
    } else {
      pad := [];
      assert s + [] == s;
    }
  }

  /** Main result: the URL decoder accepts text if and only if it is letters and
  any number of padding characters at their end. */
  lemma UrlDecodedExactly(s: text)
    ensures UrlDecoded(s).Some? <==> exists letters, pad :: s == letters + pad && AreLetters(letters, true) && AllPad(pad)
  {
    hide Octets, AreLetters, DecodeLetters, TrimPad;
    if UrlDecoded(s).Some? {
      var pad := TrimmedPad(s);
      AcceptedLetters(TrimPad(s), true);
    }
    forall letters, pad | s == letters + pad && AreLetters(letters, true) && AllPad(pad)
      ensures UrlDecoded(s).Some?
    {
      LettersArePlain(letters, true);
      TrimPadIs(letters, pad);
      LettersAccepted(letters, true);
    }
  }

  /** URL letters with any padding decode to what was written. */
  lemma UrlRoundTrip(x: text, pad: text)
    requires AllPad(pad)
    ensures UrlDecoded(Letters(x, true) + pad) == Some(x)
  {
    LettersRead(x, true);
    hide Octets, Letters, TrimPad;
    TrimPadIs(Letters(x, true), pad);
  }

  lemma {:induction false} PlainHasNoSpaces(t: text)
    requires forall i :: 0 <= i < |t| ==> !IsSpace(t[i])
    ensures NoSpaces(t) == t
  {
    if t != [] {
      PlainHasNoSpaces(t[..|t| - 1]);
      assert t == t[..|t| - 1] + [t[|t| - 1]];
    }
  }

  /** The decoder gives back what the encoder was given. */
  method EncodeDecode(x: text) returns (r: Option<text>)
    ensures r == Some(x)
  {
    var t := Encode(x);
    LettersRead(x, false);
    hide Octets, Letters, IsSpace;
    assert forall i :: 0 <= i < |t| ==> !IsSpace(t[i]) by {
      PaddingIsPad(|x|);
    }
    PlainHasNoSpaces(t);
    PaddingIsPad(|x|);
    StandardRoundTrip(t, x, Padding(|x|));
    r := Decode(t);
  }

  lemma PaddingIsPad(n: nat)
    ensures AllPad(Padding(n)) && |Padding(n)| <= 2 && !IsSpace(PAD)
  {
  }

  // ----- the two decoders against each other

  /** Exchanges the two characters in which the alphabets differ. */
  function Swap(c: octet): octet {
    match c
    case 43 => 45
    case 45 => 43
    case 47 => 95
    case 95 => 47
    case _ => c
  }

  function SwapAll(s: text): text {
    seq(|s|, i requires 0 <= i < |s| => Swap(s[i]))
  }

  lemma {:induction false} SextetsSwap(s: text)
    ensures Sextets(SwapAll(s), true) == Sextets(s, false)
  {
    if s != [] {
      var last := s[|s| - 1];
      assert Sextet(Swap(last), true) == Sextet(last, false);
      hide Sextet, Swap;
      SextetsSwap(s[..|s| - 1]);
      assert SwapAll(s)[..|s| - 1] == SwapAll(s[..|s| - 1]);
    }
  }

  lemma {:induction false} OctetsSwap(s: text)
    requires |s| % 4 != 1
    ensures Octets(SwapAll(s), true) == Octets(s, false)
    decreases |s|
  {
    if s != [] {
      hide Sextets, Joined, OctetsOf, Swap;
      var n := Min(4, |s|);
      SextetsSwap(s[..n]);
      OctetsSwap(s[n..]);
      assert SwapAll(s)[..n] == SwapAll(s[..n]) && SwapAll(s)[n..] == SwapAll(s[n..]);
    }
  }

  /** On text without padding or white space, the accumulate-then-align decoder
  accepts and returns exactly what the shift-and-OR decoder does, up to the two
  characters in which the alphabets differ. */
  lemma DecodersAgree(s: text)
    requires Plain(s)
    ensures UrlDecoded(SwapAll(s)) == Decoded(s)
  {
    hide Octets, IsSpace, NoSpaces;
    PlainHasNoSpaces(s);
    assert PadStart(s) == |s|;
    assert s != [] ==> SwapAll(s)[|s| - 1] == Swap(s[|s| - 1]) && Swap(s[|s| - 1]) != PAD;
    assert TrimPad(SwapAll(s)) == SwapAll(s);
    hide TrimPad, PadStart, Swap;
    if |s| % 4 != 1 {
      OctetsSwap(s);
    }
  }
}
