/** Fixed-width integer ranges, the decoder's failure values, and the result of one
    decoding step. Every decoder in this project takes the unread part of the buffer
    and returns either a failure or the decoded value together with what is left unread. */
module Bytes {

  type u8  = x: int | 0 <= x < 0x100
  type u16 = x: int | 0 <= x < 0x1_0000
  type u32 = x: int | 0 <= x < 0x1_0000_0000
  type u64 = x: int | 0 <= x < 0x1_0000_0000_0000_0000
  type i16 = x: int | -0x8000 <= x < 0x8000

  predicate InI16(v: int) {
    -0x8000 <= v < 0x8000
  }

  /** The closed tag table that refused a value. */
  datatype TagTable = SyncStateTable | ComponentTypeTable | WireKindTable

  /** Each way a decode attempt is aborted. The original program panics in all of
      these cases; here the panic becomes a value. */
  datatype Error =
    | OutOfData                                // a slice index past the end of the buffer
    | InvalidUtf8                              // `from_utf8(..).unwrap()` on ill-formed bytes
    | UnknownTag(table: TagTable, value: int)  // a tag outside its enum's table
    | CoordinateOverflow                       // i16 addition overflow while walking a wire path
    | EmptyFile                                // `bytes[0]` on a file with no bytes
    | UnsupportedVersion(version: u8)          // the first file byte is not 6
    | DecompressionFailed                      // the decompressor rejected the block

  datatype Result<+T> = Ok(value: T) | Err(error: Error) {
    predicate IsFailure() {
      Err?
    }

    function PropagateFailure<U>(): Result<U>
      requires Err?
    {
      Err(error)
    }

    function Extract(): T
      requires Ok?
    {
      value
    }
  }

  datatype Option<+T> = None | Some(value: T)

  /** A decoded value and the unread rest of the buffer, i.e. the state in which a
      call to `extract_new` leaves the cursor. */
  datatype Decoded<+T> = Decoded(value: T, rest: seq<u8>)

  /** A decoder never looks past what it consumes: if it succeeds on `s`, it
      succeeds on `s + t` with the same value, leaving `t` appended to the rest. */
  ghost predicate ExtendsAt<T>(decode: seq<u8> -> Result<Decoded<T>>, s: seq<u8>, t: seq<u8>)
  {
    decode(s).Ok? ==> decode(s + t) == Ok(Decoded(decode(s).value.value, decode(s).value.rest + t))
  }

  ghost predicate Extends<T>(decode: seq<u8> -> Result<Decoded<T>>)
  {
    forall s, t :: ExtendsAt(decode, s, t)
  }

  lemma AppendAssoc(a: seq<u8>, b: seq<u8>, c: seq<u8>)
    ensures (a + b) + c == a + (b + c)
  {
  }
}
