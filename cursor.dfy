/** The cursor every `extract_new` advances: the `&mut &[u8]` of the original,
    re-sliced past each value it reads. The primitive readers and the two loops of
    the decoder (the counted vector loop and the wire-path walk) are methods on it,
    each proved to do what the corresponding decoding function describes. A failed
    read is a panic in the original, after which the cursor is never looked at again. */
module Cursors {
  import opened Bytes
  import opened Primitives
  import opened Sequences
  import opened WirePaths

  /** `r` is what `spec` decodes, and `rest` is where `spec` leaves the input. */
  ghost predicate Agrees<T>(r: Result<T>, spec: Result<Decoded<T>>, rest: seq<u8>)
  {
    && (r.Ok? <==> spec.Ok?)
    && (r.Ok? ==> r.value == spec.value.value && rest == spec.value.rest)
    && (r.Err? ==> r.error == spec.error)
  }

  /** The values decoded so far, put in front of what remains to be decoded. */
  function Prepend<T>(done: seq<T>, r: Result<Decoded<seq<T>>>): (p: Result<Decoded<seq<T>>>)
    ensures p.Ok? <==> r.Ok?
    ensures p.Err? ==> p.error == r.error
    ensures p.Ok? ==> |p.value.value| == |done| + |r.value.value|
    ensures p.Ok? ==> p.value.value[..|done|] == done && p.value.value[|done|..] == r.value.value
  {
    if r.Ok? then Ok(Decoded(done + r.value.value, r.value.rest)) else Err(r.error)
  }

  lemma PrependTwice<T>(a: seq<T>, b: seq<T>, r: Result<Decoded<seq<T>>>)
    ensures Prepend(a, Prepend(b, r)) == Prepend(a + b, r)
  {
    if r.Ok? {
      assert a + (b + r.value.value) == (a + b) + r.value.value;
    }
  }

  class Cursor {
    /** The unread part of the buffer. */
    var rest: seq<u8>

    constructor(bytes: seq<u8>)
      ensures rest == bytes
    {
      rest := bytes;
    }

    /** `extractable_int!` for an unsigned type of `width` bytes: the first `width`
        bytes, little-endian, and the cursor moved past them. */
    method ReadUInt(width: nat) returns (r: Result<nat>)
      modifies this
      ensures r.Ok? <==> width <= |old(rest)|
      ensures r.Ok? ==> r.value == LittleEndian(old(rest)[..width]) && rest == old(rest)[width..]
      ensures r.Err? ==> r.error == OutOfData && rest == old(rest)
      ensures Agrees(r, ParseUInt(old(rest), width), rest)
    {
      if |rest| < width {
        return Err(OutOfData);
      }
      r := Ok(LittleEndian(rest[..width]));
      rest := rest[width..];
    }

    /** `extractable_int!` for a signed type of `width` bytes: the same bytes read
        as two's complement. */
    method ReadSInt(width: nat) returns (r: Result<int>)
      modifies this
      ensures r.Ok? <==> width <= |old(rest)|
      ensures r.Ok? ==> r.value == ToSigned(LittleEndian(old(rest)[..width]), width) && rest == old(rest)[width..]
      ensures r.Err? ==> r.error == OutOfData && rest == old(rest)
      ensures Agrees(r, ParseSInt(old(rest), width), rest)
    {
      var u :- ReadUInt(width);
      r := Ok(ToSigned(u, width));
    }

    /** `bool::extract_new`: one byte, true when it is greater than zero. */
    method ReadBool() returns (r: Result<bool>)
      modifies this
      ensures r.Ok? <==> 1 <= |old(rest)|
      ensures r.Ok? ==> (r.value <==> old(rest)[0] > 0) && rest == old(rest)[1..]
      ensures r.Err? ==> r.error == OutOfData && rest == old(rest)
      ensures Agrees(r, ParseBool(old(rest)), rest)
    {
      if |rest| < 1 {
        return Err(OutOfData);
      }
      r := Ok(rest[0] > 0);
      rest := rest[1..];
    }

    /** `T::extract_new` for a value type `T` decoded by `decode`. */
    method Extract<T>(decode: seq<u8> -> Result<Decoded<T>>) returns (r: Result<T>)
      modifies this
      ensures Agrees(r, decode(old(rest)), rest)
      ensures r.Err? ==> rest == old(rest)
    {
      var d := decode(rest);
      if d.Err? {
        return Err(d.error);
      }
      r := Ok(d.value.value);
      rest := d.value.rest;
    }

    /** `extractable_vec!`: a count of `countWidth` bytes, then a counted loop that
        pushes one decoded element per iteration. */
    method ExtractVec<T>(countWidth: nat, elem: seq<u8> -> Result<Decoded<T>>) returns (r: Result<seq<T>>)
      modifies this
      ensures Agrees(r, ParseVec(countWidth, elem, old(rest)), rest)
    {
      ghost var s0 := rest;
      var count :- ReadUInt(countWidth);
      ghost var start := rest;
      assert ParseVec(countWidth, elem, s0) == ParseN(elem, count, start);
      var vec: seq<T> := [];
      var i := 0;
      while i < count
        invariant 0 <= i <= count
        invariant |vec| == i
        invariant ParseN(elem, count, start) == Prepend(vec, ParseN(elem, count - i, rest))
      {
        ghost var before := rest;
        var x :- Extract(elem);
        assert ParseN(elem, count - i, before) == Prepend([x], ParseN(elem, count - i - 1, rest));
        PrependTwice(vec, [x], ParseN(elem, count - i - 1, rest));
        vec := vec + [x];
        i := i + 1;
      }
      assert vec + [] == vec;
      r := Ok(vec);
    }

    /** `WirePath::extract_new`: the start point and the first segment byte; then
        either the teleport target, or the `while segment != 0` loop that moves the
        current point, appends it and reads the next segment byte. */
    method ExtractWirePath() returns (r: Result<seq<Point>>)
      modifies this
      ensures Agrees(r, ParseWirePath(old(rest)), rest)
    {
      ghost var s0 := rest;
      var start :- Extract(ParsePoint);
      var path := [start];
      var current := start;
      var segment :- Extract(ParseU8);
      if segment == TeleportWire {
        var target :- Extract(ParsePoint);
        path := path + [target];
        assert path == [start, target];
        return Ok(path);
      }
      assert ParseWirePath(s0) == Prepend(path, Walk(current, segment, rest));
      while segment != 0
        invariant ParseWirePath(s0) == Prepend(path, Walk(current, segment, rest))
        decreases |rest|
      {
        ghost var before := rest;
        current :- Step(current, segment);
        path := path + [current];
        segment :- Extract(ParseU8);
        PrependTwice(path[..|path| - 1], [current], Walk(current, segment, rest));
        assert path[..|path| - 1] + [current] == path;
      }
      assert path + [] == path;
      r := Ok(path);
    }
  }
}
