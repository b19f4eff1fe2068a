/** The fixed-width codecs: little-endian integers (`extractable_int!`), `bool` and
    `Point`. Each reads a fixed number of bytes from the front of the buffer. */
module Primitives {
  import opened Bytes

  /** The number of values an integer of `n` bytes can hold. */
  function Pow256(n: nat): (r: nat)
    ensures r >= 1
  {
    if n == 0 then 1 else 256 * Pow256(n - 1)
  }

  /** The value of `bs` read least significant byte first (`from_le_bytes`). */
  function LittleEndian(bs: seq<u8>): (v: nat)
    ensures v < Pow256(|bs|)
  {
    if bs == [] then 0 else bs[0] + 256 * LittleEndian(bs[1..])
  }

  /** The `width` bytes that hold `v` least significant byte first; the inverse of
      `LittleEndian` (the decoder has no encoder; this one serves as its reference). */
  function EncodeLE(v: nat, width: nat): (bs: seq<u8>)
    ensures |bs| == width
  {
    if width == 0 then [] else [v % 256] + EncodeLE(v / 256, width - 1)
  }

  lemma {:induction false} DecodeEncodeLE(v: nat, width: nat)
    requires v < Pow256(width)
    ensures LittleEndian(EncodeLE(v, width)) == v
  {
    if width > 0 {
      var bs := EncodeLE(v, width);
      assert bs[1..] == EncodeLE(v / 256, width - 1);
      DecodeEncodeLE(v / 256, width - 1);
    }
  }

  lemma {:induction false} EncodeDecodeLE(bs: seq<u8>)
    ensures EncodeLE(LittleEndian(bs), |bs|) == bs
  {
    if bs != [] {
      var v := LittleEndian(bs);
      assert v % 256 == bs[0] && v / 256 == LittleEndian(bs[1..]);
      EncodeDecodeLE(bs[1..]);
    }
  }

  /** Two's complement reading of the unsigned value `u` of a `width`-byte integer. */
  function ToSigned(u: nat, width: nat): (v: int)
    ensures u < Pow256(width) ==> InSignedRange(v, width) && FromSigned(v, width) == u
  {
    if 2 * u < Pow256(width) then u else u - Pow256(width)
  }

  /** `v` fits a two's complement integer of `width` bytes. */
  predicate InSignedRange(v: int, width: nat)
  {
    -(Pow256(width) as int) <= 2 * v < Pow256(width)
  }

  /** The unsigned bit pattern of the signed `width`-byte integer `v`. */
  function FromSigned(v: int, width: nat): nat
    requires InSignedRange(v, width)
  {
    if v < 0 then v + Pow256(width) else v
  }

  /** `<uN>::extract_new`: reads a `width`-byte little-endian unsigned integer and
      advances the cursor past it; fewer than `width` bytes left is a failure. */
  function ParseUInt(s: seq<u8>, width: nat): (r: Result<Decoded<nat>>)
    ensures r.Ok? <==> width <= |s|
    ensures r.Err? ==> r.error == OutOfData
    ensures r.Ok? ==> r.value.value < Pow256(width) && r.value.rest == s[width..]
  {
    if |s| < width then Err(OutOfData) else Ok(Decoded(LittleEndian(s[..width]), s[width..]))
  }

  /** A successful read consumed exactly the little-endian encoding of its value. */
  lemma UIntReadsEncoding(s: seq<u8>, width: nat)
    ensures ParseUInt(s, width).Ok? ==>
      EncodeLE(ParseUInt(s, width).value.value, width) + ParseUInt(s, width).value.rest == s
  {
    if width <= |s| {
      EncodeDecodeLE(s[..width]);
      assert s[..width] + s[width..] == s;
    }
  }

  lemma UIntRoundTrip(v: nat, width: nat, t: seq<u8>)
    requires v < Pow256(width)
    ensures ParseUInt(EncodeLE(v, width) + t, width) == Ok(Decoded(v, t))
  {
    var s := EncodeLE(v, width) + t;
    assert s[..width] == EncodeLE(v, width);
    assert s[width..] == t;
    DecodeEncodeLE(v, width);
  }

  /** `<iN>::extract_new`: the same bytes read as a two's complement integer. */
  function ParseSInt(s: seq<u8>, width: nat): (r: Result<Decoded<int>>)
    ensures r.Ok? <==> width <= |s|
    ensures r.Err? ==> r.error == OutOfData
    ensures r.Ok? ==> InSignedRange(r.value.value, width) && r.value.rest == s[width..]
  {
    var u :- ParseUInt(s, width);
    Ok(Decoded(ToSigned(u.value, width), u.rest))
  }

  function EncodeSInt(v: int, width: nat): (bs: seq<u8>)
    requires InSignedRange(v, width)
    ensures |bs| == width
  {
    EncodeLE(FromSigned(v, width), width)
  }

  lemma SIntRoundTrip(v: int, width: nat, t: seq<u8>)
    requires InSignedRange(v, width)
    ensures ParseSInt(EncodeSInt(v, width) + t, width) == Ok(Decoded(v, t))
  {
    UIntRoundTrip(FromSigned(v, width), width, t);
  }

  // The integer types the records use. i8, i32 and i64 are ParseSInt at widths 1, 4, 8.

  function ParseU8(s: seq<u8>): (r: Result<Decoded<u8>>)
    ensures r.Ok? <==> 1 <= |s|
    ensures r.Err? ==> r.error == OutOfData
    ensures r.Ok? ==> r.value.value == s[0] && r.value.rest == s[1..]
  {
    var d :- ParseUInt(s, 1);
    assert d.value == LittleEndian(s[..1]) == s[0];
    Ok(Decoded(d.value as u8, d.rest))
  }

  function ParseU16(s: seq<u8>): (r: Result<Decoded<u16>>)
    ensures r.Ok? <==> 2 <= |s|
    ensures r.Err? ==> r.error == OutOfData
    ensures r.Ok? ==> r.value.value == s[0] as int + 256 * s[1] as int && r.value.rest == s[2..]
  {
    var d :- ParseUInt(s, 2);
    assert d.value == LittleEndian(s[..2]) == s[0] as int + 256 * s[1] as int;
    Ok(Decoded(d.value as u16, d.rest))
  }

  function ParseU32(s: seq<u8>): (r: Result<Decoded<u32>>)
    ensures r.Ok? <==> 4 <= |s|
    ensures r.Err? ==> r.error == OutOfData
    ensures r.Ok? ==> r.value.rest == s[4..]
  {
    var d :- ParseUInt(s, 4);
    Ok(Decoded(d.value as u32, d.rest))
  }

  function ParseU64(s: seq<u8>): (r: Result<Decoded<u64>>)
    ensures r.Ok? <==> 8 <= |s|
    ensures r.Err? ==> r.error == OutOfData
    ensures r.Ok? ==> r.value.rest == s[8..]
  {
    var d :- ParseUInt(s, 8);
    Ok(Decoded(d.value as u64, d.rest))
  }

  function ParseI16(s: seq<u8>): (r: Result<Decoded<i16>>)
    ensures r.Ok? <==> 2 <= |s|
    ensures r.Err? ==> r.error == OutOfData
    ensures r.Ok? ==> r.value.rest == s[2..]
  {
    var d :- ParseSInt(s, 2);
    Ok(Decoded(d.value as i16, d.rest))
  }

  function EncodeU8(v: u8): seq<u8> { [v] }
  function EncodeU16(v: u16): seq<u8> { EncodeLE(v, 2) }
  function EncodeU32(v: u32): seq<u8> { EncodeLE(v, 4) }
  function EncodeU64(v: u64): seq<u8> { EncodeLE(v, 8) }
  function EncodeI16(v: i16): seq<u8> { EncodeSInt(v, 2) }

  lemma U8RoundTrip(v: u8, t: seq<u8>)
    ensures ParseU8(EncodeU8(v) + t) == Ok(Decoded(v, t))
  {
    UIntRoundTrip(v, 1, t);
  }

  lemma U16RoundTrip(v: u16, t: seq<u8>)
    ensures ParseU16(EncodeU16(v) + t) == Ok(Decoded(v, t))
  {
    UIntRoundTrip(v, 2, t);
  }

  lemma U32RoundTrip(v: u32, t: seq<u8>)
    ensures ParseU32(EncodeU32(v) + t) == Ok(Decoded(v, t))
  {
    UIntRoundTrip(v, 4, t);
  }

  lemma U64RoundTrip(v: u64, t: seq<u8>)
    ensures ParseU64(EncodeU64(v) + t) == Ok(Decoded(v, t))
  {
    UIntRoundTrip(v, 8, t);
  }

  lemma I16RoundTrip(v: i16, t: seq<u8>)
    ensures ParseI16(EncodeI16(v) + t) == Ok(Decoded(v, t))
  {
    SIntRoundTrip(v, 2, t);
  }

  /** `bool::extract_new`: one byte, true iff it is not zero. */
  function ParseBool(s: seq<u8>): (r: Result<Decoded<bool>>)
    ensures r.Ok? <==> 1 <= |s|
    ensures r.Err? ==> r.error == OutOfData
    ensures r.Ok? ==> (r.value.value <==> s[0] != 0) && r.value.rest == s[1..]
  {
    if |s| == 0 then Err(OutOfData) else Ok(Decoded(s[0] > 0, s[1..]))
  }

  function EncodeBool(b: bool): seq<u8> { if b then [1] else [0] }

  lemma BoolRoundTrip(b: bool, t: seq<u8>)
    ensures ParseBool(EncodeBool(b) + t) == Ok(Decoded(b, t))
  {
  }

  datatype Point = Point(x: i16, y: i16)

  /** `Point::extract_new`: an i16 `x`, then an i16 `y`. */
  function ParsePoint(s: seq<u8>): (r: Result<Decoded<Point>>)
    ensures r.Ok? <==> 4 <= |s|
    ensures r.Err? ==> r.error == OutOfData
    ensures r.Ok? ==> r.value.rest == s[4..]
  {
    var x :- ParseI16(s);
    var y :- ParseI16(x.rest);
    Ok(Decoded(Point(x.value, y.value), y.rest))
  }

  function EncodePoint(p: Point): (bs: seq<u8>)
    ensures |bs| == 4
  {
    EncodeI16(p.x) + EncodeI16(p.y)
  }

  lemma PointRoundTrip(p: Point, t: seq<u8>)
    ensures ParsePoint(EncodePoint(p) + t) == Ok(Decoded(p, t))
  {
    assert EncodePoint(p) + t == EncodeI16(p.x) + (EncodeI16(p.y) + t);
    I16RoundTrip(p.x, EncodeI16(p.y) + t);
    I16RoundTrip(p.y, t);
  }

  /** A successful point read consumed exactly the encoding of the point. */
  lemma PointReadsEncoding(s: seq<u8>)
    ensures ParsePoint(s).Ok? ==> EncodePoint(ParsePoint(s).value.value) + s[4..] == s
  {
    if 4 <= |s| {
      var p := ParsePoint(s).value.value;
      PointRoundTrip(p, s[4..]);
      UIntReadsEncoding(s, 2);
      UIntReadsEncoding(s[2..], 2);
      var ux := LittleEndian(s[..2]);
      var uy := LittleEndian(s[2..][..2]);
      assert p.x == ToSigned(ux, 2) && p.y == ToSigned(uy, 2);
      assert FromSigned(p.x, 2) == ux && FromSigned(p.y, 2) == uy;
      assert s == EncodeLE(ux, 2) + (EncodeLE(uy, 2) + s[4..]);
    }
  }

  // Extension: the fixed-width readers never look past the bytes they consume.

  lemma UIntExtends(s: seq<u8>, t: seq<u8>, width: nat)
    ensures ParseUInt(s, width).Ok? ==>
      ParseUInt(s + t, width) == Ok(Decoded(ParseUInt(s, width).value.value, ParseUInt(s, width).value.rest + t))
  {
    if width <= |s| {
      assert (s + t)[..width] == s[..width];
      assert (s + t)[width..] == s[width..] + t;
    }
  }

  lemma SIntExtends(s: seq<u8>, t: seq<u8>, width: nat)
    ensures ParseSInt(s, width).Ok? ==>
      ParseSInt(s + t, width) == Ok(Decoded(ParseSInt(s, width).value.value, ParseSInt(s, width).value.rest + t))
  {
    UIntExtends(s, t, width);
  }

  lemma U8Extends(s: seq<u8>, t: seq<u8>)
    ensures ExtendsAt(ParseU8, s, t)
  {
    UIntExtends(s, t, 1);
  }

  lemma U16Extends(s: seq<u8>, t: seq<u8>)
    ensures ExtendsAt(ParseU16, s, t)
  {
    UIntExtends(s, t, 2);
  }

  lemma U32Extends(s: seq<u8>, t: seq<u8>)
    ensures ExtendsAt(ParseU32, s, t)
  {
    UIntExtends(s, t, 4);
  }

  lemma U64Extends(s: seq<u8>, t: seq<u8>)
    ensures ExtendsAt(ParseU64, s, t)
  {
    UIntExtends(s, t, 8);
  }

  lemma I16Extends(s: seq<u8>, t: seq<u8>)
    ensures ExtendsAt(ParseI16, s, t)
  {
    UIntExtends(s, t, 2);
  }

  lemma BoolExtends(s: seq<u8>, t: seq<u8>)
    ensures ExtendsAt(ParseBool, s, t)
  {
    if 1 <= |s| {
      assert (s + t)[1..] == s[1..] + t;
    }
  }

  lemma PointExtends(s: seq<u8>, t: seq<u8>)
    ensures ExtendsAt(ParsePoint, s, t)
  {
    if 4 <= |s| {
      I16Extends(s, t);
      I16Extends(s[2..], t);
    }
  }
}
