/** Value types shared by the source-database queries: byte text, file ids,
    text ranges and the records the queries hand back. */
module Types {

  /** One byte of UTF-8 text; all offsets in this model count bytes. */
  newtype Byte = b: int | 0 <= b < 256

  /** The contents of a `String`, as bytes. */
  type Text = seq<Byte>

  /** Opaque, stable key of a source file. */
  datatype FileId = FileId(id: nat)

  /** A raw `start..end` range as the shader preprocessor reports it to its callbacks. */
  datatype Span = Span(start: nat, end: nat)

  /** A `TextRange`: constructing one asserts `start <= end`, so a value of
      this type always satisfies it. */
  type TextRange = r: Span | r.start <= r.end witness Span(0, 0)

  /** A span elided because its guarding define was not active. */
  datatype UnconfiguredCode = UnconfiguredCode(range: TextRange, def: string)

  /** One import directive found by the preprocessor: its range in the
      processed text and the import key it names. */
  datatype ImportOccurrence = ImportOccurrence(range: TextRange, identifier: string)

  datatype Option<T> = None | Some(value: T)

  /** `Result<T, ()>`: the only error is the unit value. */
  datatype Result<T> = Ok(value: T) | Err
}
