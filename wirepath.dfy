/** The wire-path codec. A path is a start point followed by segment bytes. The top
    three bits of a segment byte select one of eight unit directions and the low
    five bits give the run length; a zero byte ends the path. A first segment byte
    equal to `TeleportWire` instead introduces a second, absolute end point. */
module WirePaths {
  import opened Bytes
  import opened Primitives

  const TeleportWire: u8 := 0x20

  /** The unit steps, indexed by the top three bits of a segment byte: +x first,
      then every 45 degrees from +x towards +y, through (0, 1), (-1, 0) and (0, -1). */
  const Directions: seq<(int, int)> :=
    [(1, 0), (1, 1), (0, 1), (-1, 1), (-1, 0), (-1, -1), (0, -1), (1, -1)]

  /** The direction field of a segment byte, `segment >> 5`: its top three bits,
      which for an unsigned byte is its quotient by 32. */
  function DirectionIndex(seg: u8): (i: nat)
    ensures i < |Directions|
  {
    seg / 32
  }

  /** The run-length field of a segment byte, `segment & 0b0001_1111`: its low five
      bits, which for an unsigned byte is its remainder modulo 32. */
  function RunLength(seg: u8): (n: nat)
    ensures n < 32
  {
    seg % 32
  }

  /** The displacement a segment byte stands for. The products stay within
      -31..31, so the i16 multiplication of the original cannot overflow. */
  function Offset(seg: u8): (o: (int, int))
    ensures -31 <= o.0 <= 31 && -31 <= o.1 <= 31
  {
    var d := Directions[DirectionIndex(seg)];
    (d.0 * RunLength(seg), d.1 * RunLength(seg))
  }

  /** The segment byte for direction `dir` and run length `len`. */
  function SegmentByte(dir: nat, len: nat): u8
    requires dir < 8 && len < 32
  {
    dir * 32 + len
  }

  /** The two fields of a segment byte are independent and read back unchanged. */
  lemma SegmentFields(dir: nat, len: nat)
    requires dir < 8 && len < 32
    ensures DirectionIndex(SegmentByte(dir, len)) == dir
    ensures RunLength(SegmentByte(dir, len)) == len
    ensures SegmentByte(dir, len) == 0 <==> dir == 0 && len == 0
    ensures SegmentByte(dir, len) == TeleportWire <==> dir == 1 && len == 0
  {
    assert dir == 0 || dir == 1 || dir == 2 || dir == 3 || dir == 4 || dir == 5 || dir == 6 || dir == 7;
  }

  /** Every step is a king's move repeated: along one of the eight directions, and
      as far as the run length in the Chebyshev metric. */
  lemma OffsetIsStraightRun(seg: u8)
    ensures var (dx, dy) := Offset(seg);
      && (dx == 0 || dy == 0 || dx == dy || dx == -dy)
      && (if dx < 0 then -dx else dx) <= RunLength(seg)
      && (if dy < 0 then -dy else dy) <= RunLength(seg)
      && ((if dx < 0 then -dx else dx) == RunLength(seg) || (if dy < 0 then -dy else dy) == RunLength(seg))
  {
    var i := DirectionIndex(seg);
    assert i == 0 || i == 1 || i == 2 || i == 3 || i == 4 || i == 5 || i == 6 || i == 7;
  }

  /** One loop iteration's point update: the i16 additions of the original, with an
      overflow (a panic in a debug build) as a failure. */
  function Step(p: Point, seg: u8): (r: Result<Point>)
    ensures r.Ok? <==> InI16(p.x + Offset(seg).0) && InI16(p.y + Offset(seg).1)
    ensures r.Err? ==> r.error == CoordinateOverflow
    ensures r.Ok? ==> r.value.x - p.x == Offset(seg).0 && r.value.y - p.y == Offset(seg).1
  {
    var x := p.x + Offset(seg).0;
    var y := p.y + Offset(seg).1;
    if InI16(x) && InI16(y) then Ok(Point(x, y)) else Err(CoordinateOverflow)
  }

  // Reference definitions: the points a list of segments visits.

  /** The corners visited from `(x, y)` in unbounded integers, start included. */
  function Corners(x: int, y: int, segs: seq<u8>): (cs: seq<(int, int)>)
    ensures |cs| == |segs| + 1 && cs[0] == (x, y)
    decreases |segs|
  {
    if segs == [] then [(x, y)]
    else [(x, y)] + Corners(x + Offset(segs[0]).0, y + Offset(segs[0]).1, segs[1..])
  }

  predicate AllInI16(cs: seq<(int, int)>)
  {
    forall i :: 0 <= i < |cs| ==> InI16(cs[i].0) && InI16(cs[i].1)
  }

  /** The path traced from `p` by `segs`: it exists exactly when every corner fits
      in i16, and then it is the list of corners. */
  function Trace(p: Point, segs: seq<u8>): (r: Result<seq<Point>>)
    ensures r.Ok? <==> AllInI16(Corners(p.x, p.y, segs))
    ensures r.Err? ==> r.error == CoordinateOverflow
    ensures r.Ok? ==> |r.value| == |segs| + 1 && r.value[0] == p
    ensures r.Ok? ==> forall i :: 0 <= i < |r.value| ==>
      (r.value[i].x, r.value[i].y) == Corners(p.x, p.y, segs)[i]
    decreases |segs|
  {
    if segs == [] then Ok([p])
    else
      var cs := Corners(p.x, p.y, segs);
      assert cs[1..] == Corners(p.x + Offset(segs[0]).0, p.y + Offset(segs[0]).1, segs[1..]);
      var q :- Step(p, segs[0]);
      var tail :- Trace(q, segs[1..]);
      Ok([p] + tail)
  }

  /** Consecutive points of a path differ by the offset of the segment between them. */
  predicate FollowsSegments(path: seq<Point>, segs: seq<u8>)
  {
    && |path| == |segs| + 1
    && forall i :: 0 <= i < |segs| ==>
         path[i + 1].x - path[i].x == Offset(segs[i]).0 && path[i + 1].y - path[i].y == Offset(segs[i]).1
  }

  lemma {:induction false} TraceFollowsSegments(p: Point, segs: seq<u8>)
    requires Trace(p, segs).Ok?
    ensures FollowsSegments(Trace(p, segs).value, segs)
    decreases |segs|
  {
    if segs != [] {
      var q := Step(p, segs[0]).value;
      TraceFollowsSegments(q, segs[1..]);
      var path := Trace(p, segs).value;
      assert path == [p] + Trace(q, segs[1..]).value;
      forall i | 0 <= i < |segs|
        ensures path[i + 1].x - path[i].x == Offset(segs[i]).0 && path[i + 1].y - path[i].y == Offset(segs[i]).1
      {
        if i > 0 {
          assert segs[i] == segs[1..][i - 1];
        }
      }
    }
  }

  // The decoder.

  /** The `while segment != 0` loop: `seg` is the segment byte just read, `s` what
      follows it. Each non-zero segment moves the current point and reads the next
      byte; the zero byte ends the walk. Only the points after `cur` are returned. */
  function Walk(cur: Point, seg: u8, s: seq<u8>): (r: Result<Decoded<seq<Point>>>)
    decreases |s|
  {
    if seg == 0 then Ok(Decoded([], s))
    else
      var next :- Step(cur, seg);
      var b :- ParseU8(s);
      var tail :- Walk(next, b.value, b.rest);
      Ok(Decoded([next] + tail.value, tail.rest))
  }

  /** `WirePath::extract_new`. */
  function ParseWirePath(s: seq<u8>): (r: Result<Decoded<seq<Point>>>)
    ensures r.Ok? ==> ParsePoint(s).Ok? && |r.value.value| >= 1 && r.value.value[0] == ParsePoint(s).value.value
  {
    var start :- ParsePoint(s);
    var seg :- ParseU8(start.rest);
    if seg.value == TeleportWire then
      var target :- ParsePoint(seg.rest);
      Ok(Decoded([start.value, target.value], target.rest))
    else
      var walk :- Walk(start.value, seg.value, seg.rest);
      Ok(Decoded([start.value] + walk.value, walk.rest))
  }

  /** Reading a terminated list of non-zero segments yields the traced path, or the
      overflow that stops it. */
  lemma {:induction false} WalkTrace(cur: Point, seg: u8, segs: seq<u8>, t: seq<u8>)
    requires seg != 0
    requires forall i :: 0 <= i < |segs| ==> segs[i] != 0
    ensures var tr := Trace(cur, [seg] + segs);
      Walk(cur, seg, segs + [0] + t) == if tr.Ok? then Ok(Decoded(tr.value[1..], t)) else Err(tr.error)
    decreases |segs|
  {
    var s := segs + [0] + t;
    if Step(cur, seg).Ok? {
      var next := Step(cur, seg).value;
      assert ([seg] + segs)[1..] == segs;
      if segs == [] {
        assert s == [0] + t;
        assert ParseU8(s) == Ok(Decoded(0, t));
        assert Trace(next, []) == Ok([next]);
        var tr := Trace(cur, [seg]);
        if tr.Ok? {
          assert tr.value == [cur] + [next];
          assert tr.value[1..] == [next] + [];
        }
      } else {
        assert s[0] == segs[0] && s[1..] == segs[1..] + [0] + t;
        WalkTrace(next, segs[0], segs[1..], t);
        assert [segs[0]] + segs[1..] == segs;
      }
    }
  }

  /** What a successful walk has read: as many bytes as it returned points, the
      last of them the zero terminator and all others non-zero. */
  lemma {:induction false} WalkReads(cur: Point, seg: u8, s: seq<u8>)
    requires seg != 0 && Walk(cur, seg, s).Ok?
    ensures var w := Walk(cur, seg, s).value;
      && 1 <= |w.value| <= |s|
      && s[|w.value| - 1] == 0
      && (forall i :: 0 <= i < |w.value| - 1 ==> s[i] != 0)
      && w.rest == s[|w.value|..]
    decreases |s|
  {
    var next := Step(cur, seg).value;
    var b := ParseU8(s).value;
    if b.value != 0 {
      WalkReads(next, b.value, b.rest);
      var w := Walk(cur, seg, s).value;
      var w' := Walk(next, b.value, b.rest).value;
      assert |w.value| == |w'.value| + 1;
      forall i | 0 <= i < |w.value| - 1
        ensures s[i] != 0
      {
        if i > 0 {
          assert s[i] == b.rest[i - 1];
        }
      }
    }
  }

  /** A teleport wire: the start point, the marker byte and the end point. */
  lemma TeleportRoundTrip(a: Point, b: Point, t: seq<u8>)
    ensures ParseWirePath(EncodePoint(a) + [TeleportWire] + EncodePoint(b) + t) == Ok(Decoded([a, b], t))
  {
    var s := EncodePoint(a) + [TeleportWire] + EncodePoint(b) + t;
    assert s == EncodePoint(a) + ([TeleportWire] + EncodePoint(b) + t);
    PointRoundTrip(a, [TeleportWire] + EncodePoint(b) + t);
    assert ([TeleportWire] + EncodePoint(b) + t)[1..] == EncodePoint(b) + t;
    PointRoundTrip(b, t);
  }

  /** A path whose first segment byte is not the teleport marker is the start
      point followed by what the walk from it returns. */
  lemma WirePathWalks(s: seq<u8>)
    requires ParsePoint(s).Ok? && ParseU8(ParsePoint(s).value.rest).Ok?
    requires ParseU8(ParsePoint(s).value.rest).value.value != TeleportWire
    ensures var start := ParsePoint(s).value.value;
      var w := Walk(start, s[4], s[5..]);
      ParseWirePath(s) == if w.Ok? then Ok(Decoded([start] + w.value.value, w.value.rest)) else Err(w.error)
  {
  }

  /** `WirePathWalks` for an encoded start point. */
  lemma WirePathAfterStart(start: Point, body: seq<u8>)
    requires |body| >= 1 && body[0] != TeleportWire
    ensures var w := Walk(start, body[0], body[1..]);
      ParseWirePath(EncodePoint(start) + body) == if w.Ok? then Ok(Decoded([start] + w.value.value, w.value.rest)) else Err(w.error)
  {
    var s := EncodePoint(start) + body;
    PointRoundTrip(start, body);
    assert s[4] == body[0] && s[5..] == body[1..];
    WirePathWalks(s);
  }

  /** A segment wire: the start point, the segments (none zero, the first not the
      teleport marker) and the zero terminator decode to the traced path. */
  lemma SegmentsRoundTrip(start: Point, segs: seq<u8>, t: seq<u8>)
    requires forall i :: 0 <= i < |segs| ==> segs[i] != 0
    requires segs == [] || segs[0] != TeleportWire
    ensures var tr := Trace(start, segs);
      ParseWirePath(EncodePoint(start) + segs + [0] + t) == if tr.Ok? then Ok(Decoded(tr.value, t)) else Err(tr.error)
  {
    var body := segs + [0] + t;
    assert EncodePoint(start) + segs + [0] + t == EncodePoint(start) + body;
    WirePathAfterStart(start, body);
    if segs == [] {
      assert body[0] == 0 && body[1..] == t;
      assert Trace(start, segs) == Ok([start]);
      assert [start] + [] == [start];
    } else {
      assert body[0] == segs[0] && body[1..] == segs[1..] + [0] + t;
      WalkFromSegments(start, segs, t);
    }
  }

  /** `WalkTrace` with the segment list whole: the start point and the walk's
      points together are the traced path. */
  lemma WalkFromSegments(cur: Point, segs: seq<u8>, t: seq<u8>)
    requires segs != [] && forall i :: 0 <= i < |segs| ==> segs[i] != 0
    ensures var w := Walk(cur, segs[0], segs[1..] + [0] + t);
      var tr := Trace(cur, segs);
      && (tr.Ok? ==> w.Ok? && [cur] + w.value.value == tr.value && w.value.rest == t)
      && (tr.Err? ==> w == Err(tr.error))
  {
    WalkTrace(cur, segs[0], segs[1..], t);
    assert [segs[0]] + segs[1..] == segs;
    var tr := Trace(cur, segs);
    if tr.Ok? {
      assert [cur] + tr.value[1..] == tr.value;
    }
  }

  /** A successful walk, with `body` its first segment byte and what follows: it
      read `n` non-zero segment bytes and the zero terminator, `n` being the number
      of points it returned, and those points are the ones the segments trace. */
  lemma {:induction false} WalkLayout(cur: Point, body: seq<u8>)
    requires |body| >= 1 && Walk(cur, body[0], body[1..]).Ok?
    ensures var w := Walk(cur, body[0], body[1..]).value;
      var n := |w.value|;
      && n < |body|
      && body[n] == 0
      && (forall i :: 0 <= i < n ==> body[i] != 0)
      && w.rest == body[n + 1..]
      && Trace(cur, body[..n]) == Ok([cur] + w.value)
  {
    var w := Walk(cur, body[0], body[1..]).value;
    var n := |w.value|;
    if body[0] == 0 {
      assert body[..0] == [];
      assert [cur] + [] == [cur];
    } else {
      WalkReads(cur, body[0], body[1..]);
      forall i | 0 < i < n
        ensures body[i] != 0
      {
        assert body[i] == body[1..][i - 1];
      }
      var segs := body[..n];
      assert segs[0] == body[0] && segs[1..] + [0] + body[n + 1..] == body[1..];
      WalkFromSegments(cur, segs, body[n + 1..]);
    }
  }

  /** Conversely, a segment wire that decodes is laid out as above: after the
      start point, `n` non-zero segment bytes (`n` one less than the number of
      points), the zero terminator, then the rest; and the path is the one those
      segments trace. */
  lemma SegmentsLayout(s: seq<u8>)
    requires ParseWirePath(s).Ok? && |s| > 4 && s[4] != TeleportWire
    ensures var r := ParseWirePath(s).value;
      var body := s[4..];
      var n := |r.value| - 1;
      && n < |body|
      && body[n] == 0
      && (forall i :: 0 <= i < n ==> body[i] != 0)
      && r.rest == body[n + 1..]
      && Trace(r.value[0], body[..n]) == Ok(r.value)
  {
    var start := ParsePoint(s).value.value;
    var body := s[4..];
    assert body[0] == s[4] && body[1..] == s[5..];
    WirePathWalks(s);
    WalkLayout(start, body);
  }

  /** A point appended for the marker byte 0x20 repeats the one before it:
      direction 1, run length zero. */
  lemma MarkerStepRepeats(path: seq<Point>, segs: seq<u8>, i: nat)
    requires FollowsSegments(path, segs) && i < |segs| && segs[i] == TeleportWire
    ensures path[i + 1] == path[i]
  {
    assert Offset(segs[i]) == (0, 0);
  }

  /** Only the first segment byte is a teleport marker: a later 0x20 appends a
      point equal to the one before it. */
  lemma LaterTeleportByteRepeats(s: seq<u8>, i: nat)
    requires ParseWirePath(s).Ok? && |s| > 4 && s[4] != TeleportWire
    requires 0 < i < |ParseWirePath(s).value.value| - 1 && 4 + i < |s| && s[4 + i] == TeleportWire
    ensures ParseWirePath(s).value.value[i + 1] == ParseWirePath(s).value.value[i]
  {
    var path := ParseWirePath(s).value.value;
    SegmentsLayout(s);
    var segs := s[4..][..|path| - 1];
    assert Trace(path[0], segs) == Ok(path);
    TraceFollowsSegments(path[0], segs);
    MarkerStepRepeats(path, segs, i);
  }

  /** The worked example: start (0, 0), a run of 3 along (1, 0), then a run of 2
      along (1, 1). */
  lemma Example()
    ensures ParseWirePath([0, 0, 0, 0, 3, 0x22, 0]) == Ok(Decoded([Point(0, 0), Point(3, 0), Point(5, 2)], []))
  {
    var o, p1, p2 := Point(0, 0), Point(3, 0), Point(5, 2);
    var body: seq<u8> := [3, 0x22, 0];
    OriginEncoding();
    assert EncodePoint(o) + body == [0, 0, 0, 0, 3, 0x22, 0];
    assert body[0] == 3 && body[1..] == [0x22, 0];
    WirePathAfterStart(o, body);
    ExampleWalk();
    assert [o] + [p1, p2] == [o, p1, p2];
  }

  lemma OriginEncoding()
    ensures EncodePoint(Point(0, 0)) == [0, 0, 0, 0]
  {
    assert FromSigned(0, 2) == 0;
    assert EncodeLE(0, 2) == [0, 0];
  }

  /** The loop part of `Example`: two segments, then the terminator. */
  lemma ExampleWalk()
    ensures Walk(Point(0, 0), 3, [0x22, 0]) == Ok(Decoded([Point(3, 0), Point(5, 2)], []))
  {
    var p1, p2 := Point(3, 0), Point(5, 2);
    assert Walk(p1, 0x22, [0]) == Ok(Decoded([p2], [])) by {
      assert Offset(0x22) == (2, 2);
      assert [p2] + [] == [p2];
    }
    assert Offset(3) == (3, 0);
    assert [p1] + [p2] == [p1, p2];
  }

  // Stored paths: the two shapes a wire path is written in.

  datatype PathCode = Teleport(from: Point, to: Point) | Segments(start: Point, segs: seq<u8>)

  /** Segments are non-zero, the first is not the teleport marker, and the path
      they trace stays within i16. */
  predicate ValidPathCode(c: PathCode)
  {
    c.Segments? ==>
      && (forall i :: 0 <= i < |c.segs| ==> c.segs[i] != 0)
      && (c.segs == [] || c.segs[0] != TeleportWire)
      && Trace(c.start, c.segs).Ok?
  }

  type EncodablePath = c: PathCode | ValidPathCode(c) witness Segments(Point(0, 0), [])

  function EncodePath(c: EncodablePath): seq<u8>
  {
    match c
    case Teleport(a, b) => EncodePoint(a) + [TeleportWire] + EncodePoint(b)
    case Segments(p, segs) => EncodePoint(p) + segs + [0]
  }

  /** The points a stored path stands for. */
  function PathOf(c: EncodablePath): seq<Point>
  {
    match c
    case Teleport(a, b) => [a, b]
    case Segments(p, segs) => Trace(p, segs).value
  }

  lemma PathRoundTrip(c: EncodablePath, t: seq<u8>)
    ensures ParseWirePath(EncodePath(c) + t) == Ok(Decoded(PathOf(c), t))
  {
    match c
    case Teleport(a, b) =>
      TeleportRoundTrip(a, b, t);
    case Segments(p, segs) =>
      SegmentsRoundTrip(p, segs, t);
  }

  lemma {:induction false} WalkExtends(cur: Point, seg: u8, s: seq<u8>, t: seq<u8>)
    ensures Walk(cur, seg, s).Ok? ==>
      Walk(cur, seg, s + t) == Ok(Decoded(Walk(cur, seg, s).value.value, Walk(cur, seg, s).value.rest + t))
    decreases |s|
  {
    if seg != 0 && Walk(cur, seg, s).Ok? {
      var next := Step(cur, seg).value;
      U8Extends(s, t);
      var b := ParseU8(s).value;
      WalkExtends(next, b.value, b.rest, t);
    }
  }

  lemma WirePathExtends(s: seq<u8>, t: seq<u8>)
    ensures ExtendsAt(ParseWirePath, s, t)
  {
    if ParseWirePath(s).Ok? {
      PointExtends(s, t);
      var start := ParsePoint(s).value;
      U8Extends(start.rest, t);
      var seg := ParseU8(start.rest).value;
      if seg.value == TeleportWire {
        PointExtends(seg.rest, t);
      } else {
        WalkExtends(start.value, seg.value, seg.rest, t);
      }
    }
  }
}
