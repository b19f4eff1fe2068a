/** The top level: wires, the circuit, and the two entry points. The file entry
    point checks the version byte and hands the rest to a decompressor, which is a
    parameter here; the payload entry point decodes a circuit and ignores whatever
    follows it. */
module Circuits {
  import opened Bytes
  import opened Primitives
  import opened Tags
  import opened Sequences
  import opened Records
  import opened WirePaths

  // Wire

  datatype Wire = Wire(kind: WireKind, color: u8, comment: Utf8, path: seq<Point>)

  /** The wire kind, the colour byte, the comment string, then the path. */
  function ParseWire(s: seq<u8>): (r: Result<Decoded<Wire>>)
    ensures r.Ok? ==> |r.value.value.path| >= 1
  {
    var kind :- ParseWireKind(s);
    var color :- ParseU8(kind.rest);
    var comment :- ParseString(color.rest);
    var path :- ParseWirePath(comment.rest);
    Ok(Decoded(Wire(kind.value, color.value, comment.value, path.value), path.rest))
  }

  /** A wire as written: its path in one of the two stored shapes. */
  datatype StoredWire = StoredWire(kind: WireKind, color: u8, comment: Utf8, path: EncodablePath)

  type EncodableWire = w: StoredWire | |w.comment| < 0x1_0000
    witness StoredWire(Width1, 0, EmptyText, Segments(Point(0, 0), []))

  function EncodeWire(w: EncodableWire): seq<u8>
  {
    [WireKindTag(w.kind)] + ([w.color] + (EncodeString(w.comment) + EncodePath(w.path)))
  }

  function WireOf(w: EncodableWire): Wire
  {
    Wire(w.kind, w.color, w.comment, PathOf(w.path))
  }

  lemma WireRoundTrip(w: EncodableWire, t: seq<u8>)
    ensures ParseWire(EncodeWire(w) + t) == Ok(Decoded(WireOf(w), t))
  {
    var r2 := EncodeString(w.comment) + EncodePath(w.path);
    var r1 := [w.color] + r2;
    assert ParseWireKind(EncodeWire(w) + t) == Ok(Decoded(w.kind, r1 + t)) by {
      AppendAssoc([WireKindTag(w.kind)], r1, t);
      WireKindRoundTrip(w.kind, r1 + t);
    }
    assert ParseU8(r1 + t) == Ok(Decoded(w.color, r2 + t)) by {
      AppendAssoc([w.color], r2, t);
      U8RoundTrip(w.color, r2 + t);
    }
    assert ParseString(r2 + t) == Ok(Decoded(w.comment, EncodePath(w.path) + t)) by {
      AppendAssoc(EncodeString(w.comment), EncodePath(w.path), t);
      StringRoundTrip(w.comment, EncodePath(w.path) + t);
    }
    PathRoundTrip(w.path, t);
  }

  lemma WireRepresents()
    ensures Represents(ParseWire, EncodeWire, WireOf)
  {
    forall w: EncodableWire, t: seq<u8> ensures ParseWire(EncodeWire(w) + t) == Ok(Decoded(WireOf(w), t)) {
      WireRoundTrip(w, t);
    }
  }

  // Circuit

  datatype Circuit = Circuit(header: Header, components: seq<Component>, wires: seq<Wire>)

  /** The header, a `LongVec` of components, then a `LongVec` of wires. */
  function ParseCircuit(s: seq<u8>): (r: Result<Decoded<Circuit>>)
  {
    var header :- ParseHeader(s);
    var components :- ParseLongVec(ParseComponent, header.rest);
    var wires :- ParseLongVec(ParseWire, components.rest);
    Ok(Decoded(Circuit(header.value, components.value, wires.value), wires.rest))
  }

  predicate CircuitEncodable(h: Header, components: seq<EncodableComponent>, wires: seq<EncodableWire>)
  {
    HeaderEncodable(h) && |components| < Pow256(8) && |wires| < Pow256(8)
  }

  function EncodeCircuit(h: Header, components: seq<EncodableComponent>, wires: seq<EncodableWire>): seq<u8>
    requires CircuitEncodable(h, components, wires)
  {
    EncodeHeader(h) + (EncodeVec(8, EncodeComponent, components) + EncodeVec(8, EncodeWire, wires))
  }

  /** The circuit a stored header, components and wires stand for. */
  function CircuitOf(h: Header, components: seq<EncodableComponent>, wires: seq<EncodableWire>): Circuit
  {
    Circuit(h, Meanings(ComponentOf, components), Meanings(WireOf, wires))
  }

  lemma CircuitRoundTrip(h: Header, components: seq<EncodableComponent>, wires: seq<EncodableWire>, t: seq<u8>)
    requires CircuitEncodable(h, components, wires)
    ensures ParseCircuit(EncodeCircuit(h, components, wires) + t) == Ok(Decoded(CircuitOf(h, components, wires), t))
  {
    var ws := EncodeVec(8, EncodeWire, wires);
    var r1 := EncodeVec(8, EncodeComponent, components) + ws;
    assert ParseHeader(EncodeCircuit(h, components, wires) + t) == Ok(Decoded(h, r1 + t)) by {
      AppendAssoc(EncodeHeader(h), r1, t);
      HeaderRoundTrip(h, r1 + t);
    }
    assert ParseLongVec(ParseComponent, r1 + t) == Ok(Decoded(Meanings(ComponentOf, components), ws + t)) by {
      AppendAssoc(EncodeVec(8, EncodeComponent, components), ws, t);
      ComponentRepresents();
      VecRepresents(8, ParseComponent, EncodeComponent, ComponentOf, components, ws + t);
    }
    assert ParseLongVec(ParseWire, ws + t) == Ok(Decoded(Meanings(WireOf, wires), t)) by {
      WireRepresents();
      VecRepresents(8, ParseWire, EncodeWire, WireOf, wires, t);
    }
  }

  // Extension: bytes after a decodable prefix change nothing.

  lemma WireExtends(s: seq<u8>, t: seq<u8>)
    ensures ExtendsAt(ParseWire, s, t)
  {
    if ParseWire(s).Ok? {
      var kind := ParseWireKind(s).value;          WireKindExtends(s, t);
      var color := ParseU8(kind.rest).value;       U8Extends(kind.rest, t);
      var comment := ParseString(color.rest).value;  StringExtends(color.rest, t);
      WirePathExtends(comment.rest, t);
    }
  }

  lemma WireDecoderExtends()
    ensures Extends(ParseWire)
  {
    forall s, t ensures ExtendsAt(ParseWire, s, t) {
      WireExtends(s, t);
    }
  }

  lemma CircuitExtends(s: seq<u8>, t: seq<u8>)
    ensures ExtendsAt(ParseCircuit, s, t)
  {
    if ParseCircuit(s).Ok? {
      var header := ParseHeader(s).value;
      HeaderExtends(s, t);
      var components := ParseLongVec(ParseComponent, header.rest).value;
      assert ParseLongVec(ParseComponent, header.rest + t) == Ok(Decoded(components.value, components.rest + t)) by {
        ComponentDecoderExtends();
        VecExtends(8, ParseComponent, header.rest, t);
      }
      var wires := ParseLongVec(ParseWire, components.rest).value;
      assert ParseLongVec(ParseWire, components.rest + t) == Ok(Decoded(wires.value, wires.rest + t)) by {
        WireDecoderExtends();
        VecExtends(8, ParseWire, components.rest, t);
      }
    }
  }

  // Entry points

  /** `get_data_from_bytes`: the circuit at the start of the payload. What follows
      the last wire is discarded without being looked at. */
  function GetDataFromBytes(payload: seq<u8>): (r: Result<Circuit>)
    ensures r.Ok? <==> ParseCircuit(payload).Ok?
    ensures r.Ok? ==> r.value == ParseCircuit(payload).value.value
    ensures r.Err? ==> r.error == ParseCircuit(payload).error
  {
    var c :- ParseCircuit(payload);
    Ok(c.value)
  }

  /** There is no check that the payload was consumed: any bytes appended to a
      decodable payload leave the result unchanged. */
  lemma TrailingBytesIgnored(payload: seq<u8>, junk: seq<u8>)
    requires GetDataFromBytes(payload).Ok?
    ensures GetDataFromBytes(payload + junk) == GetDataFromBytes(payload)
  {
    CircuitExtends(payload, junk);
  }

  lemma PayloadRoundTrip(h: Header, components: seq<EncodableComponent>, wires: seq<EncodableWire>, junk: seq<u8>)
    requires CircuitEncodable(h, components, wires)
    ensures GetDataFromBytes(EncodeCircuit(h, components, wires) + junk) == Ok(CircuitOf(h, components, wires))
  {
    CircuitRoundTrip(h, components, wires, junk);
  }

  /** The only save-format version the decoder accepts. */
  const SupportedVersion: u8 := 6

  /** `get_data_from_file`, given the file's bytes: the first byte must be the
      supported version, and the rest is decompressed by `decompress` (the Snappy
      raw decoder in the original) and decoded as a payload. */
  function GetDataFromFile(file: seq<u8>, decompress: seq<u8> -> Option<seq<u8>>): (r: Result<Circuit>)
    ensures |file| == 0 ==> r == Err(EmptyFile)
    ensures |file| > 0 && file[0] != SupportedVersion ==> r == Err(UnsupportedVersion(file[0]))
    ensures |file| > 0 && file[0] == SupportedVersion && decompress(file[1..]).None? ==> r == Err(DecompressionFailed)
    ensures |file| > 0 && file[0] == SupportedVersion && decompress(file[1..]).Some? ==>
      r == GetDataFromBytes(decompress(file[1..]).value)
    ensures r.Ok? ==> |file| > 0 && file[0] == SupportedVersion && decompress(file[1..]).Some?
  {
    if |file| == 0 then Err(EmptyFile)
    else if file[0] != SupportedVersion then Err(UnsupportedVersion(file[0]))
    else
      match decompress(file[1..])
      case None => Err(DecompressionFailed)
      case Some(payload) => GetDataFromBytes(payload)
  }

  /** A file that is the version byte followed by a compressed encoding decodes to
      the circuit encoded, for any decompressor that undoes the compressor. */
  lemma FileRoundTrip(h: Header, components: seq<EncodableComponent>, wires: seq<EncodableWire>, junk: seq<u8>,
                      compress: seq<u8> -> seq<u8>, decompress: seq<u8> -> Option<seq<u8>>)
    requires CircuitEncodable(h, components, wires)
    requires forall p :: decompress(compress(p)) == Some(p)
    ensures GetDataFromFile([SupportedVersion] + compress(EncodeCircuit(h, components, wires) + junk), decompress)
      == Ok(CircuitOf(h, components, wires))
  {
    var payload := EncodeCircuit(h, components, wires) + junk;
    var file := [SupportedVersion] + compress(payload);
    assert file[1..] == compress(payload);
    assert decompress(file[1..]) == Some(payload);
    assert GetDataFromFile(file, decompress) == GetDataFromBytes(payload);
    PayloadRoundTrip(h, components, wires, junk);
  }

  /** The version is checked before the decompressor is called: a file with another
      first byte fails the same way whatever the decompressor does. */
  lemma VersionCheckedFirst(file: seq<u8>, d1: seq<u8> -> Option<seq<u8>>, d2: seq<u8> -> Option<seq<u8>>)
    requires |file| == 0 || file[0] != SupportedVersion
    ensures GetDataFromFile(file, d1) == GetDataFromFile(file, d2)
  {
  }
}
