/** Shared vocabulary of the NZB parsers: optional values, the error kinds the
    parsers can abort with, the result of a builder's `create`, and the overall
    outcome of one parse. */
module Common {

  /** One more than the largest value of an unsigned 32-bit integer. */
  const U32_LIMIT: int := 0x1_0000_0000

  /** An unsigned 32-bit integer (`u32`). */
  type u32 = x: int | 0 <= x < U32_LIMIT

  datatype Option<+T> = None | Some(value: T)
  {
    /** The value of `this` if there is one, otherwise `other`. */
    function Or(other: Option<T>): Option<T>
    {
      if Some? then this else other
    }

    /** The value of `this` if there is one, otherwise `default`. */
    function GetOr(default: T): T
    {
      if Some? then value else default
    }
  }

  /** Every way a parse can fail with an error value (as opposed to a panic). */
  datatype Error =
    | MissingFilename        // NzbFileBuilder.create with no filename set
    | IncompleteSegment      // SegmentBuilder.create with a slot unset
    | InvalidSegment         // older parser: a segment start tag lacking a field
    | FilenameNotInSubject   // a `subject` attribute without a double quote
    | AttributeError         // an attribute or its value could not be read
    | TextError              // a text node could not be unescaped

  datatype Result<+T> = Ok(value: T) | Err(error: Error)

  /** What a builder's `create` leaves behind: the builder after the call and
      the record it produced (or the error it failed with). */
  datatype Built<+B, +T> = Built(builder: B, result: Result<T>)

  /** The outcome of a whole parse: the list of files, an error, or the panic
      raised on a malformed XML stream. No partial list accompanies a failure. */
  datatype Outcome<+F> = Parsed(files: seq<F>) | Failed(error: Error) | Panicked

  /** Appending one element and then a tail is appending the two together. */
  lemma AppendCons<T>(acc: seq<T>, x: T, rest: seq<T>)
    ensures acc + [x] + rest == acc + ([x] + rest)
  {
  }
}
