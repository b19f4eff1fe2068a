/** The length-prefixed codecs: `ShortVec` (u16 count) and `LongVec` (u64 count),
    both from `extractable_vec!`, the pair codec, and `String`, a `ShortVec<u8>`
    that must be well-formed UTF-8. */
module Sequences {
  import opened Bytes
  import opened Primitives

  /** Decodes `n` elements one after another, each from where the previous one
      stopped: the counted `for` loop of `extractable_vec!` as a recursion. */
  function ParseN<T>(elem: seq<u8> -> Result<Decoded<T>>, n: nat, s: seq<u8>): (r: Result<Decoded<seq<T>>>)
    ensures r.Ok? ==> |r.value.value| == n
    decreases n
  {
    if n == 0 then Ok(Decoded([], s))
    else
      var head :- elem(s);
      var tail :- ParseN(elem, n - 1, head.rest);
      Ok(Decoded([head.value] + tail.value, tail.rest))
  }

  /** `cs` lists the cursor before each of the elements `vs` and after the last one,
      and each element is what `elem` decodes at its cursor. */
  ghost predicate Chain<T>(elem: seq<u8> -> Result<Decoded<T>>, vs: seq<T>, cs: seq<seq<u8>>)
  {
    && |cs| == |vs| + 1
    && forall i :: 0 <= i < |vs| ==> elem(cs[i]) == Ok(Decoded(vs[i], cs[i + 1]))
  }

  /** A successful `ParseN` decoded element i at the cursor left by element i - 1. */
  lemma {:induction false} ParseNChain<T>(elem: seq<u8> -> Result<Decoded<T>>, n: nat, s: seq<u8>)
    ensures ParseN(elem, n, s).Ok? ==>
      exists cs :: Chain(elem, ParseN(elem, n, s).value.value, cs)
        && cs[0] == s && cs[n] == ParseN(elem, n, s).value.rest
  {
    if n > 0 && ParseN(elem, n, s).Ok? {
      var head := elem(s).value;
      ParseNChain(elem, n - 1, head.rest);
      var tail := ParseN(elem, n - 1, head.rest).value;
      var cs' :| Chain(elem, tail.value, cs') && cs'[0] == head.rest && cs'[n - 1] == tail.rest;
      var cs := [s] + cs';
      assert Chain(elem, [head.value] + tail.value, cs);
    } else if n == 0 {
      assert Chain(elem, [], [s]);
    }
  }

  /** Conversely, elements that chain from `cs[0]` are exactly what `ParseN` returns. */
  lemma {:induction false} ChainParseN<T>(elem: seq<u8> -> Result<Decoded<T>>, vs: seq<T>, cs: seq<seq<u8>>)
    requires Chain(elem, vs, cs)
    ensures ParseN(elem, |vs|, cs[0]) == Ok(Decoded(vs, cs[|vs|]))
  {
    if |vs| > 0 {
      assert Chain(elem, vs[1..], cs[1..]);
      ChainParseN(elem, vs[1..], cs[1..]);
      assert [vs[0]] + vs[1..] == vs;
    }
  }

  /** `extractable_vec!`: a little-endian count of `countWidth` bytes, then that many elements. */
  function ParseVec<T>(countWidth: nat, elem: seq<u8> -> Result<Decoded<T>>, s: seq<u8>): (r: Result<Decoded<seq<T>>>)
    ensures |s| < countWidth ==> r == Err(OutOfData)
    ensures r.Ok? ==> countWidth <= |s| && |r.value.value| == LittleEndian(s[..countWidth])
    ensures countWidth <= |s| && LittleEndian(s[..countWidth]) == 0 ==> r == Ok(Decoded([], s[countWidth..]))
    ensures countWidth <= |s| ==> r == ParseN(elem, LittleEndian(s[..countWidth]), s[countWidth..])
  {
    var n :- ParseUInt(s, countWidth);
    ParseN(elem, n.value, n.rest)
  }

  /** `ShortVec<T>`: a u16 count, so at most 65535 elements. */
  function ParseShortVec<T>(elem: seq<u8> -> Result<Decoded<T>>, s: seq<u8>): (r: Result<Decoded<seq<T>>>)
    ensures |s| < 2 ==> r == Err(OutOfData)
    ensures r.Ok? ==> 2 <= |s| && |r.value.value| == LittleEndian(s[..2])
    ensures r.Ok? ==> |r.value.value| < 0x1_0000
  {
    ParseVec(2, elem, s)
  }

  /** `LongVec<T>`: a u64 count, so fewer than 2^64 elements. */
  function ParseLongVec<T>(elem: seq<u8> -> Result<Decoded<T>>, s: seq<u8>): (r: Result<Decoded<seq<T>>>)
    ensures |s| < 8 ==> r == Err(OutOfData)
    ensures r.Ok? ==> 8 <= |s| && |r.value.value| == LittleEndian(s[..8])
    ensures r.Ok? ==> |r.value.value| < 0x1_0000_0000_0000_0000
  {
    ParseVec(8, elem, s)
  }

  /** `(T, U)::extract_new`: the first component, then the second. */
  function ParsePair<A, B>(first: seq<u8> -> Result<Decoded<A>>, second: seq<u8> -> Result<Decoded<B>>, s: seq<u8>)
    : (r: Result<Decoded<(A, B)>>)
  {
    var a :- first(s);
    var b :- second(a.rest);
    Ok(Decoded((a.value, b.value), b.rest))
  }

  // Reference encoders, and the round trips they complete.

  /** `decode` reads back every value `encode` writes, whatever follows it. */
  ghost predicate Inverts<T(!new)>(decode: seq<u8> -> Result<Decoded<T>>, encode: T -> seq<u8>)
  {
    forall v, t :: decode(encode(v) + t) == Ok(Decoded(v, t))
  }

  /** The same for an encoding from a stored form `C` that holds more than the
      decoded value (such as the order of entries that end up in a map): whatever
      follows it, `decode` reads back the value `meaning` assigns to the stored form. */
  ghost predicate Represents<C(!new), T>(decode: seq<u8> -> Result<Decoded<T>>, encode: C -> seq<u8>, meaning: C -> T)
  {
    forall c, t :: decode(encode(c) + t) == Ok(Decoded(meaning(c), t))
  }

  function Meanings<C, T>(meaning: C -> T, cs: seq<C>): (vs: seq<T>)
    ensures |vs| == |cs| && forall i :: 0 <= i < |cs| ==> vs[i] == meaning(cs[i])
  {
    seq(|cs|, i requires 0 <= i < |cs| => meaning(cs[i]))
  }

  function EncodeAll<T>(encode: T -> seq<u8>, vs: seq<T>): seq<u8>
  {
    if vs == [] then [] else encode(vs[0]) + EncodeAll(encode, vs[1..])
  }

  function EncodeVec<T>(countWidth: nat, encode: T -> seq<u8>, vs: seq<T>): seq<u8>
    requires |vs| < Pow256(countWidth)
  {
    EncodeLE(|vs|, countWidth) + EncodeAll(encode, vs)
  }

  lemma {:induction false} ParseNRepresents<C(!new), T>(elem: seq<u8> -> Result<Decoded<T>>, encode: C -> seq<u8>,
                                                        meaning: C -> T, cs: seq<C>, t: seq<u8>)
    requires Represents(elem, encode, meaning)
    ensures ParseN(elem, |cs|, EncodeAll(encode, cs) + t) == Ok(Decoded(Meanings(meaning, cs), t))
  {
    if cs != [] {
      var tail := EncodeAll(encode, cs[1..]) + t;
      assert EncodeAll(encode, cs) + t == encode(cs[0]) + tail;
      assert elem(encode(cs[0]) + tail) == Ok(Decoded(meaning(cs[0]), tail));
      ParseNRepresents(elem, encode, meaning, cs[1..], t);
      assert [meaning(cs[0])] + Meanings(meaning, cs[1..]) == Meanings(meaning, cs);
    } else {
      assert EncodeAll(encode, cs) + t == t;
    }
  }

  lemma VecRepresents<C(!new), T>(countWidth: nat, elem: seq<u8> -> Result<Decoded<T>>, encode: C -> seq<u8>,
                                  meaning: C -> T, cs: seq<C>, t: seq<u8>)
    requires Represents(elem, encode, meaning) && |cs| < Pow256(countWidth)
    ensures ParseVec(countWidth, elem, EncodeVec(countWidth, encode, cs) + t) == Ok(Decoded(Meanings(meaning, cs), t))
  {
    var body := EncodeAll(encode, cs) + t;
    assert EncodeVec(countWidth, encode, cs) + t == EncodeLE(|cs|, countWidth) + body;
    UIntRoundTrip(|cs|, countWidth, body);
    ParseNRepresents(elem, encode, meaning, cs, t);
  }

  /** The round trip of a vector whose elements read back as themselves. */
  lemma VecRoundTrip<T(!new)>(countWidth: nat, elem: seq<u8> -> Result<Decoded<T>>, encode: T -> seq<u8>, vs: seq<T>, t: seq<u8>)
    requires Inverts(elem, encode) && |vs| < Pow256(countWidth)
    ensures ParseVec(countWidth, elem, EncodeVec(countWidth, encode, vs) + t) == Ok(Decoded(vs, t))
  {
    var id := (v: T) => v;
    assert Represents(elem, encode, id);
    VecRepresents(countWidth, elem, encode, id, vs, t);
    assert Meanings(id, vs) == vs;
  }

  lemma PairRoundTrip<A(!new), B(!new)>(first: seq<u8> -> Result<Decoded<A>>, encodeFirst: A -> seq<u8>,
                                        second: seq<u8> -> Result<Decoded<B>>, encodeSecond: B -> seq<u8>,
                                        a: A, b: B, t: seq<u8>)
    requires Inverts(first, encodeFirst) && Inverts(second, encodeSecond)
    ensures ParsePair(first, second, encodeFirst(a) + encodeSecond(b) + t) == Ok(Decoded((a, b), t))
  {
    assert encodeFirst(a) + encodeSecond(b) + t == encodeFirst(a) + (encodeSecond(b) + t);
    assert first(encodeFirst(a) + (encodeSecond(b) + t)) == Ok(Decoded(a, encodeSecond(b) + t));
    assert second(encodeSecond(b) + t) == Ok(Decoded(b, t));
  }

  // Byte runs: `ShortVec<u8>` reads its count, then that many raw bytes.

  lemma {:induction false} ParseBytes(n: nat, s: seq<u8>)
    ensures ParseN(ParseU8, n, s) == if n <= |s| then Ok(Decoded(s[..n], s[n..])) else Err(OutOfData)
  {
    if n > 0 && |s| > 0 {
      ParseBytes(n - 1, s[1..]);
      if n <= |s| {
        assert [s[0]] + s[1..][..n - 1] == s[..n];
        assert s[1..][n - 1..] == s[n..];
      }
    }
  }

  /** `ShortVec<u8>` (the player data, and the bytes of a string) consumes its
      count and exactly that many further bytes, which it returns unchanged. */
  lemma ByteVec(s: seq<u8>)
    ensures ParseShortVec(ParseU8, s) ==
      if |s| < 2 then Err(OutOfData)
      else
        var n := LittleEndian(s[..2]);
        if 2 + n <= |s| then Ok(Decoded(s[2..2 + n], s[2 + n..])) else Err(OutOfData)
  {
    if 2 <= |s| {
      var n := LittleEndian(s[..2]);
      ParseBytes(n, s[2..]);
      if 2 + n <= |s| {
        assert s[2..][..n] == s[2..2 + n];
        assert s[2..][n..] == s[2 + n..];
      }
    }
  }

  // UTF-8 well-formedness, as section 4 of RFC 3629 defines it; this is the set of
  // byte strings `std::str::from_utf8` accepts.

  predicate IsContinuation(b: u8)
  {
    0x80 <= b <= 0xBF
  }

  /** The length of the well-formed character encoding at the front of `bs`, or 0
      when the front is not one (a stray continuation byte, an overlong form, a
      surrogate, a code point above U+10FFFF, or a truncated sequence). */
  function Utf8CharLength(bs: seq<u8>): (n: nat)
    requires |bs| > 0
    ensures n <= |bs| && n <= 4
  {
    var b := bs[0];
    if b <= 0x7F then 1
    else if 0xC2 <= b <= 0xDF then
      if 2 <= |bs| && IsContinuation(bs[1]) then 2 else 0
    else if 0xE0 <= b <= 0xEF then
      var lo := if b == 0xE0 then 0xA0 else 0x80;
      var hi := if b == 0xED then 0x9F else 0xBF;
      if 3 <= |bs| && lo <= bs[1] <= hi && IsContinuation(bs[2]) then 3 else 0
    else if 0xF0 <= b <= 0xF4 then
      var lo := if b == 0xF0 then 0x90 else 0x80;
      var hi := if b == 0xF4 then 0x8F else 0xBF;
      if 4 <= |bs| && lo <= bs[1] <= hi && IsContinuation(bs[2]) && IsContinuation(bs[3]) then 4 else 0
    else 0
  }

  predicate ValidUtf8(bs: seq<u8>)
    decreases |bs|
  {
    bs == [] || (var n := Utf8CharLength(bs); n > 0 && ValidUtf8(bs[n..]))
  }

  /** Rust's `String`: bytes that are well-formed UTF-8. */
  type Utf8 = bs: seq<u8> | ValidUtf8(bs)

  const EmptyText: Utf8 := []

  /** Overlong forms and UTF-16 surrogates are refused. */
  lemma Utf8Refusals()
    ensures !ValidUtf8([0xC0, 0x80])
    ensures !ValidUtf8([0xE0, 0x80, 0x80])
    ensures !ValidUtf8([0xED, 0xA0, 0x80])
    ensures !ValidUtf8([0xF4, 0x90, 0x80, 0x80])
    ensures !ValidUtf8([0x80])
  {
  }

  /** `String::extract_new`: a `ShortVec<u8>` of `n` bytes, then `from_utf8(..).unwrap()`. */
  function ParseString(s: seq<u8>): (r: Result<Decoded<Utf8>>)
    ensures |s| < 2 ==> r == Err(OutOfData)
    ensures 2 <= |s| ==>
      var n := LittleEndian(s[..2]);
      && (|s| < 2 + n ==> r == Err(OutOfData))
      && (2 + n <= |s| ==> (r.Ok? <==> ValidUtf8(s[2..2 + n])))
      && (2 + n <= |s| && r.Err? ==> r.error == InvalidUtf8)
      && (r.Ok? ==> r.value == Decoded(s[2..2 + n], s[2 + n..]))
  {
    ByteVec(s);
    var bytes :- ParseShortVec(ParseU8, s);
    if ValidUtf8(bytes.value) then Ok(Decoded(bytes.value, bytes.rest)) else Err(InvalidUtf8)
  }

  function EncodeString(u: Utf8): seq<u8>
    requires |u| < 0x1_0000
  {
    EncodeLE(|u|, 2) + u
  }

  lemma StringRoundTrip(u: Utf8, t: seq<u8>)
    requires |u| < 0x1_0000
    ensures ParseString(EncodeString(u) + t) == Ok(Decoded(u, t))
  {
    var s := EncodeString(u) + t;
    UIntRoundTrip(|u|, 2, u + t);
    assert s == EncodeLE(|u|, 2) + (u + t);
    assert s[2..2 + |u|] == u;
    assert s[2 + |u|..] == t;
  }

  // Extension: none of these decoders looks past the bytes it consumes.

  lemma {:induction false} ParseNExtends<T>(elem: seq<u8> -> Result<Decoded<T>>, n: nat, s: seq<u8>, t: seq<u8>)
    requires Extends(elem)
    ensures ExtendsAt((s': seq<u8>) => ParseN(elem, n, s'), s, t)
  {
    if n > 0 && ParseN(elem, n, s).Ok? {
      assert ExtendsAt(elem, s, t);
      ParseNExtends(elem, n - 1, elem(s).value.rest, t);
    }
  }

  lemma VecExtends<T>(countWidth: nat, elem: seq<u8> -> Result<Decoded<T>>, s: seq<u8>, t: seq<u8>)
    requires Extends(elem)
    ensures ExtendsAt((s': seq<u8>) => ParseVec(countWidth, elem, s'), s, t)
  {
    if countWidth <= |s| {
      UIntExtends(s, t, countWidth);
      ParseNExtends(elem, LittleEndian(s[..countWidth]), s[countWidth..], t);
    }
  }

  lemma PairExtends<A, B>(first: seq<u8> -> Result<Decoded<A>>, second: seq<u8> -> Result<Decoded<B>>, s: seq<u8>, t: seq<u8>)
    requires Extends(first) && Extends(second)
    ensures ExtendsAt((s': seq<u8>) => ParsePair(first, second, s'), s, t)
  {
    assert ExtendsAt(first, s, t);
    if first(s).Ok? {
      assert ExtendsAt(second, first(s).value.rest, t);
    }
  }

  lemma U8DecoderExtends()
    ensures Extends(ParseU8)
  {
    forall s, t ensures ExtendsAt(ParseU8, s, t) {
      U8Extends(s, t);
    }
  }

  lemma StringExtends(s: seq<u8>, t: seq<u8>)
    ensures ExtendsAt(ParseString, s, t)
  {
    U8DecoderExtends();
    VecExtends(2, ParseU8, s, t);
  }
}
